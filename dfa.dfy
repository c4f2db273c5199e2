/**
 * The transition table of a deterministic finite automaton: a matrix of
 * target states, one row per state and one column per input symbol, and
 * a list of final states without duplicates.
 */
module Dfa {

  /** The list holds each state at most once. */
  predicate NoDuplicates(s: seq<nat>) {
    forall i, j :: 0 <= i < j < |s| ==> s[i] != s[j]
  }

  /** A table with `rows` rows of `columns` cells each. */
  predicate Shaped(t: seq<seq<nat>>, rows: nat, columns: nat) {
    |t| == rows && forall i :: 0 <= i < rows ==> |t[i]| == columns
  }

  /** The table with the cell in row `r`, column `c` set to `v`. */
  function SetCell(t: seq<seq<nat>>, r: nat, c: nat, v: nat): seq<seq<nat>>
    requires r < |t| && c < |t[r]|
  {
    var row: seq<nat> := t[r][c := v];
    t[r := row]
  }

  /** Setting a cell keeps the shape, gives the cell its value and changes no other cell. */
  lemma SetCellOnly(t: seq<seq<nat>>, rows: nat, columns: nat, r: nat, c: nat, v: nat)
    requires Shaped(t, rows, columns) && r < rows && c < columns
    ensures var u := SetCell(t, r, c, v);
      && Shaped(u, rows, columns)
      && u[r][c] == v
      && forall i, j :: 0 <= i < rows && 0 <= j < columns && (i != r || j != c) ==> u[i][j] == t[i][j]
  {
  }

  /** Setting a cell twice leaves the second value. */
  lemma SetCellOverwrites(t: seq<seq<nat>>, r: nat, c: nat, v: nat, w: nat)
    requires r < |t| && c < |t[r]|
    ensures SetCell(SetCell(t, r, c, v), r, c, w) == SetCell(t, r, c, w)
  {
    assert SetCell(t, r, c, v)[r][c := w] == t[r][c := w];
  }

  /** `add_final_state` on the list: the state is appended unless it is already there. */
  function AddFinal(finals: seq<nat>, state: nat): seq<nat> {
    if state in finals then finals else finals + [state]
  }

  /** Adding a final state keeps the list free of duplicates. */
  lemma AddFinalNoDuplicates(finals: seq<nat>, state: nat)
    requires NoDuplicates(finals)
    ensures NoDuplicates(AddFinal(finals, state))
  {
  }

  /** After adding, the final states are the old ones and the added one. */
  lemma AddFinalMembers(finals: seq<nat>, state: nat)
    ensures forall s :: s in AddFinal(finals, state) <==> s in finals || s == state
  {
  }

  /** Adding keeps the old list as a prefix and appends at most the added state. */
  lemma AddFinalAppends(finals: seq<nat>, state: nat)
    ensures var r := AddFinal(finals, state); r == finals || r == finals + [state]
  {
  }

  /** Adding the same state twice is adding it once. */
  lemma AddFinalIdempotent(finals: seq<nat>, state: nat)
    ensures AddFinal(AddFinal(finals, state), state) == AddFinal(finals, state)
  {
  }

  /** The program's `DFA`: the number of states and symbols, the table and the final states. */
  class DFA {
    const numStates: nat
    const numSymbols: nat
    const delta: array2<nat>
    var finalStates: seq<nat>

    /** The table has one row per state and one column per symbol; no final state is listed twice. */
    ghost predicate Valid()
      reads this
    {
      delta.Length0 == numStates && delta.Length1 == numSymbols && NoDuplicates(finalStates)
    }

    /** The table as rows of target states. */
    ghost function Table(): seq<seq<nat>>
      reads this, delta
      requires Valid()
    {
      seq(numStates, i requires 0 <= i < numStates reads delta =>
        seq(numSymbols, j requires 0 <= j < numSymbols reads delta => delta[i, j]))
    }

    /** `DFA::new`: every transition goes to state 0 and no state is final. */
    constructor(numStates: nat, numSymbols: nat)
      ensures Valid() && fresh(delta)
      ensures this.numStates == numStates && this.numSymbols == numSymbols
      ensures forall i, j :: 0 <= i < numStates && 0 <= j < numSymbols ==> delta[i, j] == 0
      ensures finalStates == []
    {
      this.numStates := numStates;
      this.numSymbols := numSymbols;
      delta := new nat[numStates, numSymbols]((i, j) => 0);
      finalStates := [];
    }

    /**
     * `set_transition`: the transition from `fromState` on `symbol` now
     * goes to `toState`. The program panics on a state or symbol outside
     * the table.
     */
    method SetTransition(fromState: nat, symbol: nat, toState: nat)
      requires Valid() && fromState < numStates && symbol < numSymbols
      modifies delta
      ensures Valid()
      ensures Table() == SetCell(old(Table()), fromState, symbol, toState)
    {
      ghost var before := Table();
      delta[fromState, symbol] := toState;
      ghost var after := SetCell(before, fromState, symbol, toState);
      forall i | 0 <= i < numStates
        ensures Table()[i] == after[i]
      {
        assert forall j :: 0 <= j < numSymbols ==> Table()[i][j] == after[i][j];
      }
    }

    /** `add_final_state`: the state becomes final; a state already final is not listed again. */
    method AddFinalState(state: nat)
      requires Valid()
      modifies this
      ensures Valid() && unchanged(delta)
      ensures finalStates == AddFinal(old(finalStates), state)
      ensures IsFinalState(state)
      ensures forall s :: IsFinalState(s) <==> s in old(finalStates) || s == state
    {
      if state !in finalStates {
        finalStates := finalStates + [state];
      }
      AddFinalNoDuplicates(old(finalStates), state);
      AddFinalMembers(old(finalStates), state);
    }

    /** `is_final_state`: whether the state is in the list of final states. */
    predicate IsFinalState(state: nat)
      reads this
    {
      state in finalStates
    }
  }
}

/**
 * Pass 1 of the two-pass assembler, as pure functions over the tables the
 * assembler owns. Each function here is the specification of one method of
 * the `Assembler` class (module Assembler): the method changes the object's
 * fields exactly as the function computes a new `AsmState` from the old.
 */
module AssemblerSpec {
  import opened Wrappers
  import opened Strings

  // ---------------------------------------------------------------------
  // Catalogs
  // ---------------------------------------------------------------------

  datatype CatalogEntry = CatalogEntry(name: string, code: nat)

  const OPCODE_TABLE: seq<CatalogEntry> := [
    CatalogEntry("STOP", 0), CatalogEntry("ADD", 1), CatalogEntry("SUB", 2),
    CatalogEntry("MUL", 3), CatalogEntry("MOVER", 4), CatalogEntry("MOVEM", 5),
    CatalogEntry("COMP", 6), CatalogEntry("BC", 7), CatalogEntry("DIV", 8),
    CatalogEntry("READ", 9), CatalogEntry("PRINT", 10), CatalogEntry("DS", 11),
    CatalogEntry("DC", 12)
  ]

  const REGISTER_TABLE: seq<CatalogEntry> := [
    CatalogEntry("AREG", 0), CatalogEntry("BREG", 1), CatalogEntry("CREG", 2),
    CatalogEntry("DREG", 3)
  ]

  const CONDITION_TABLE: seq<CatalogEntry> := [
    CatalogEntry("LT", 0), CatalogEntry("LE", 1), CatalogEntry("EQ", 2),
    CatalogEntry("GT", 3), CatalogEntry("GE", 4), CatalogEntry("ANY", 5)
  ]

  /** `table.iter().find(|e| e.name == name).map(|e| e.code)`. */
  function Lookup(table: seq<CatalogEntry>, name: string): Option<nat> {
    LookupFrom(table, name, 0)
  }

  /** The search of `Lookup`, with the iterator at entry `i`. */
  function LookupFrom(table: seq<CatalogEntry>, name: string, i: nat): Option<nat>
    requires i <= |table|
    decreases |table| - i
  {
    if i == |table| then None
    else if table[i].name == name then Some(table[i].code)
    else LookupFrom(table, name, i + 1)
  }

  /** The search from `i` finds the first entry at or after `i` so named, and nothing when there is none. */
  lemma {:induction false} LookupFromFinds(table: seq<CatalogEntry>, name: string, i: nat)
    requires i <= |table|
    ensures LookupFrom(table, name, i).None? <==> forall j :: i <= j < |table| ==> table[j].name != name
    ensures LookupFrom(table, name, i).Some? ==>
      exists j :: i <= j < |table| && table[j].name == name && table[j].code == LookupFrom(table, name, i).value
        && forall k :: i <= k < j ==> table[k].name != name
    decreases |table| - i
  {
    if i < |table| {
      if table[i].name == name {
        assert OccursFirst(table, name, i, i);
      } else {
        LookupFromFinds(table, name, i + 1);
        if LookupFrom(table, name, i + 1).Some? {
          var j :| i + 1 <= j < |table| && table[j].name == name
            && table[j].code == LookupFrom(table, name, i + 1).value
            && forall k :: i + 1 <= k < j ==> table[k].name != name;
          assert OccursFirst(table, name, i, j);
        }
      }
    }
  }

  /** Entry `j` is the first entry at or after `i` named `name`. */
  predicate OccursFirst(table: seq<CatalogEntry>, name: string, i: nat, j: nat) {
    i <= j < |table| && table[j].name == name && forall k :: i <= k < j ==> table[k].name != name
  }

  /** `Lookup` yields the code of the first entry so named, and nothing exactly when there is none. */
  lemma LookupFinds(table: seq<CatalogEntry>, name: string)
    ensures Lookup(table, name).None? <==> forall i :: 0 <= i < |table| ==> table[i].name != name
    ensures Lookup(table, name).Some? ==>
      exists i :: 0 <= i < |table| && table[i].name == name && table[i].code == Lookup(table, name).value
        && forall j :: 0 <= j < i ==> table[j].name != name
  {
    LookupFromFinds(table, name, 0);
  }

  // ---------------------------------------------------------------------
  // Tables
  // ---------------------------------------------------------------------

  datatype Symbol = Symbol(name: string, address: nat, defined: bool, used: bool)

  datatype ValueKind = SymbolKind | ConstantKind

  datatype IntermediateCode =
    IntermediateCode(address: nat, opcode: nat, reg: Option<nat>, kind: ValueKind, value: nat)

  datatype ErrorType =
    | InvalidValue
    | UnknownMnemonic
    | InvalidOperand
    | MissingLabel
    | MissingConditionCode
    | UndefinedSymbol(name: string)

  datatype Error = Error(lineNumber: nat, errorType: ErrorType)

  /** Everything an `Assembler` changes: its three tables and its location counter. */
  datatype AsmState = AsmState(
    symbols: seq<Symbol>,
    code: seq<IntermediateCode>,
    errors: seq<Error>,
    lc: nat)

  /** The state of a freshly constructed assembler. */
  const INITIAL: AsmState := AsmState([], [], [], 0)

  /** No two symbols share a name. */
  predicate UniqueNames(symbols: seq<Symbol>) {
    forall i, j :: 0 <= i < j < |symbols| ==> symbols[i].name != symbols[j].name
  }

  predicate HasSymbol(symbols: seq<Symbol>, name: string) {
    exists i :: 0 <= i < |symbols| && symbols[i].name == name
  }

  /** `iter().find(|sym| sym.name == name)`: the index of the first symbol so named. */
  function FindSymbol(symbols: seq<Symbol>, name: string): (r: Option<nat>)
    ensures r.None? <==> !HasSymbol(symbols, name)
    ensures r.Some? ==> r.value < |symbols| && symbols[r.value].name == name
    ensures r.Some? ==> forall j :: 0 <= j < r.value ==> symbols[j].name != name
    decreases |symbols|
  {
    if symbols == [] then None
    else if symbols[|symbols| - 1].name == name && FindSymbol(symbols[..|symbols| - 1], name).None?
    then Some(|symbols| - 1)
    else
      var r := FindSymbol(symbols[..|symbols| - 1], name);
      if r.None? then
        assert !HasSymbol(symbols, name) by {
          forall i | 0 <= i < |symbols| ensures symbols[i].name != name {
            if i < |symbols| - 1 { assert symbols[i] == symbols[..|symbols| - 1][i]; }
          }
        }
        None
      else r
  }

  // ---------------------------------------------------------------------
  // Symbol table, intermediate code, errors
  // ---------------------------------------------------------------------

  /**
   * `add_symbol`: a reference to `name` as an operand. An existing symbol is
   * marked used and its current address is the value; a new one is appended,
   * undefined, and its table index is the value.
   */
  function AddSymbol(st: AsmState, name: string): (r: (AsmState, nat))
    ensures r.0.code == st.code && r.0.errors == st.errors && r.0.lc == st.lc
  {
    match FindSymbol(st.symbols, name)
    case Some(i) =>
      (st.(symbols := st.symbols[i := st.symbols[i].(used := true)]), st.symbols[i].address)
    case None =>
      (st.(symbols := st.symbols + [Symbol(name, 0, false, true)]), |st.symbols|)
  }

  /**
   * `add_symbol_as_label`: binds `name` to the location counter, marking it
   * defined; returns the bound address.
   */
  function AddSymbolAsLabel(st: AsmState, name: string): (r: (AsmState, nat))
    ensures r.0.code == st.code && r.0.errors == st.errors && r.0.lc == st.lc
    ensures r.1 == st.lc
  {
    match FindSymbol(st.symbols, name)
    case Some(i) =>
      (st.(symbols := st.symbols[i := st.symbols[i].(defined := true, address := st.lc)]), st.lc)
    case None =>
      (st.(symbols := st.symbols + [Symbol(name, st.lc, true, false)]), st.lc)
  }

  /** `generate_intermediate_code`: one record at the location counter, which then moves on by one. */
  function GenerateIntermediateCode(st: AsmState, opcode: nat, reg: Option<nat>, kind: ValueKind, value: nat): (r: AsmState)
    ensures r.symbols == st.symbols && r.errors == st.errors
  {
    st.(code := st.code + [IntermediateCode(st.lc, opcode, reg, kind, value)], lc := st.lc + 1)
  }

  function PushError(st: AsmState, lineNumber: nat, errorType: ErrorType): (r: AsmState)
    ensures r.symbols == st.symbols && r.code == st.code && r.lc == st.lc
  {
    st.(errors := st.errors + [Error(lineNumber, errorType)])
  }

  // ---------------------------------------------------------------------
  // Operands and directives
  // ---------------------------------------------------------------------

  /** What `process_operands` returns besides its effect on the tables. */
  datatype Operand = Operand(reg: Option<nat>, kind: ValueKind, value: nat)

  /**
   * `process_operands` over the tokens left on the line: an optional
   * register, then an optional constant or symbol. An unknown register is
   * reported (stamped with the location counter, not the line) and the
   * empty operand is returned without looking further.
   */
  function ProcessOperands(st: AsmState, ops: seq<string>): (r: (AsmState, Operand))
    ensures r.0.code == st.code && r.0.lc == st.lc
  {
    if |ops| > 0 && Lookup(REGISTER_TABLE, ops[0]).None? then
      (PushError(st, st.lc, InvalidValue), Operand(None, SymbolKind, 0))
    else
      var reg := if |ops| > 0 then Lookup(REGISTER_TABLE, ops[0]) else None;
      if |ops| > 1 then
        match ParseUsize(ops[1])
        case Some(n) => (st, Operand(reg, ConstantKind, n))
        case None =>
          var (st1, v) := AddSymbol(st, ops[1]);
          (st1, Operand(reg, SymbolKind, v))
      else (st, Operand(reg, SymbolKind, 0))
  }

  /** The operand of START, DS and DC, when present, parses as a `usize` (otherwise the source panics). */
  predicate NumericOperand(ops: seq<string>) {
    |ops| > 0 ==> ParseUsize(ops[0]).Some?
  }

  /** `process_ds`: reserves the given number of words. */
  function ProcessDs(st: AsmState, ops: seq<string>): (r: AsmState)
    requires NumericOperand(ops)
    ensures r.symbols == st.symbols && r.code == st.code && r.errors == st.errors
  {
    if |ops| > 0 then st.(lc := st.lc + ParseUsize(ops[0]).value) else st
  }

  /** `process_dc`: one constant record, or InvalidOperand when the value is missing. */
  function ProcessDc(st: AsmState, ops: seq<string>, lineNumber: nat): (r: AsmState)
    requires NumericOperand(ops)
    ensures r.symbols == st.symbols
  {
    if |ops| > 0 then
      st.(code := st.code + [IntermediateCode(st.lc, 12, None, ConstantKind, ParseUsize(ops[0]).value)],
          lc := st.lc + 1)
    else PushError(st, lineNumber, InvalidOperand)
  }

  /** `process_opcode`: dispatch on a code of the opcode catalog. */
  function ProcessOpcode(st: AsmState, code: nat, ops: seq<string>, lineNumber: nat): AsmState
    requires code <= 12
    requires code == 11 || code == 12 ==> NumericOperand(ops)
  {
    match code
    case 0 => GenerateIntermediateCode(st, 0, None, ConstantKind, 0)
    case 1 | 2 | 3 | 8 | 4 | 5 | 6 =>
      var (st1, op) := ProcessOperands(st, ops);
      GenerateIntermediateCode(st1, code, op.reg, op.kind, op.value)
    case 9 | 10 =>
      if |ops| > 0 then
        var (st1, v) := AddSymbol(st, ops[0]);
        GenerateIntermediateCode(st1, code, None, SymbolKind, v)
      else st
    case 7 =>
      if |ops| > 0 then
        var reg := Lookup(CONDITION_TABLE, ops[0]);
        if |ops| > 1 then
          var (st1, v) := AddSymbol(st, ops[1]);
          GenerateIntermediateCode(st1, 7, reg, SymbolKind, v)
        else PushError(st, lineNumber, MissingLabel)
      else PushError(st, lineNumber, MissingConditionCode)
    case 11 => ProcessDs(st, ops)
    case _ => ProcessDc(st, ops, lineNumber)
  }

  /** `handle_start_and_end`: the new state, and whether the line is done with. */
  function HandleStartAndEnd(st: AsmState, mnemonic: string, ops: seq<string>): (r: (AsmState, bool))
    requires mnemonic == "START" ==> NumericOperand(ops)
  {
    if mnemonic == "START" then
      (if |ops| > 0 then st.(lc := ParseUsize(ops[0]).value) else st, true)
    else (st, mnemonic == "END")
  }

  // ---------------------------------------------------------------------
  // Lines and the pass
  // ---------------------------------------------------------------------

  /** A line's tokens: an optional label (its colon removed), the mnemonic, and what follows. */
  datatype LineParts = LineParts(labelName: Option<string>, mnemonic: string, ops: seq<string>)

  /**
   * The first token is a label when it ends with a colon; the mnemonic is
   * the token after it, or the empty string when there is none.
   */
  function SplitLabel(tokens: seq<string>): (r: LineParts)
  {
    if tokens == [] then LineParts(None, "", [])
    else if EndsWith(tokens[0], ":") then
      var name := tokens[0][..|tokens[0]| - 1];
      if |tokens| > 1 then LineParts(Some(name), tokens[1], tokens[2..])
      else LineParts(Some(name), "", [])
    else LineParts(None, tokens[0], tokens[1..])
  }

  function LinePartsOf(line: string): LineParts {
    SplitLabel(SplitWhitespace(line))
  }

  /** The operand of a START, DS or DC directive parses (otherwise the source panics). */
  predicate PartsParse(p: LineParts) {
    p.mnemonic == "START" || p.mnemonic == "DS" || p.mnemonic == "DC" ==> NumericOperand(p.ops)
  }

  /** The line does not make the source panic. */
  predicate DirectivesParse(line: string) {
    PartsParse(LinePartsOf(line))
  }

  predicate AllDirectivesParse(lines: seq<string>) {
    forall i :: 0 <= i < |lines| ==> DirectivesParse(lines[i])
  }

  /** The `DS` and `DC` entries are the only ones with codes 11 and 12. */
  lemma DirectiveCodes(m: string)
    ensures Lookup(OPCODE_TABLE, m) == Some(11) ==> m == "DS"
    ensures Lookup(OPCODE_TABLE, m) == Some(12) ==> m == "DC"
    ensures Lookup(OPCODE_TABLE, m).Some? ==> Lookup(OPCODE_TABLE, m).value <= 12
  {
    LookupFinds(OPCODE_TABLE, m);
  }

  /** The body of `pass1`'s loop for one line. */
  function ProcessLine(st: AsmState, lineNumber: nat, line: string): AsmState
    requires DirectivesParse(line)
  {
    ProcessParts(st, lineNumber, LinePartsOf(line))
  }

  /** The state after the label of a line, if it has one, is bound. */
  function BindLabel(st: AsmState, p: LineParts): (r: AsmState)
    ensures r.code == st.code && r.errors == st.errors && r.lc == st.lc
  {
    if p.labelName.Some? then AddSymbolAsLabel(st, p.labelName.value).0 else st
  }

  /** A split line: bind its label, then START/END, or dispatch on its mnemonic, or report it unknown. */
  function ProcessParts(st: AsmState, lineNumber: nat, p: LineParts): AsmState
    requires PartsParse(p)
  {
    var st1 := BindLabel(st, p);
    var (st2, handled) := HandleStartAndEnd(st1, p.mnemonic, p.ops);
    if handled then st2
    else
      match Lookup(OPCODE_TABLE, p.mnemonic)
      case Some(code) =>
        DirectiveCodes(p.mnemonic);
        ProcessOpcode(st2, code, p.ops, lineNumber)
      case None => PushError(st2, lineNumber, UnknownMnemonic)
  }

  /** The lines processed in order, each with its 0-based index as line number. */
  function ProcessLines(st: AsmState, lines: seq<string>): AsmState
    requires AllDirectivesParse(lines)
    decreases |lines|
  {
    if lines == [] then st
    else
      var n := |lines| - 1;
      ProcessLine(ProcessLines(st, lines[..n]), n, lines[n])
  }

  /** Processing one more line extends the processing of the lines before it. */
  lemma ProcessLinesStep(st: AsmState, lines: seq<string>, k: nat)
    requires k < |lines| && AllDirectivesParse(lines)
    ensures AllDirectivesParse(lines[..k]) && AllDirectivesParse(lines[..k + 1])
    ensures ProcessLines(st, lines[..k + 1]) == ProcessLine(ProcessLines(st, lines[..k]), k, lines[k])
  {
    assert lines[..k + 1][..k] == lines[..k];
  }

  /** The UndefinedSymbol errors of the end-of-pass sweep, in table order. */
  function UndefinedErrors(symbols: seq<Symbol>): seq<Error>
    decreases |symbols|
  {
    if symbols == [] then []
    else
      var s := symbols[|symbols| - 1];
      UndefinedErrors(symbols[..|symbols| - 1])
        + (if s.used && !s.defined then [Error(0, UndefinedSymbol(s.name))] else [])
  }

  /** `check_undefined_symbols`. */
  function CheckUndefinedSymbols(st: AsmState): (r: AsmState)
    ensures r.symbols == st.symbols && r.code == st.code && r.lc == st.lc
  {
    st.(errors := st.errors + UndefinedErrors(st.symbols))
  }

  /** `pass1`: every line, then the sweep. */
  function Pass1(st: AsmState, lines: seq<string>): AsmState
    requires AllDirectivesParse(lines)
  {
    CheckUndefinedSymbols(ProcessLines(st, lines))
  }
}

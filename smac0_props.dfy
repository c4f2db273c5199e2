/** What the SMAC0 model promises, one instruction, one run and one load at a time. */
module Smac0Props {
  import opened Wrappers
  import opened Strings
  import opened Smac0Spec

  // ---------------------------------------------------------------------
  // Decoding
  // ---------------------------------------------------------------------

  lemma DropLowLiterals(w: nat)
    ensures DropDigits(w, 3) == w / 1000 && DropDigits(w, 4) == w / 10000
    ensures LowDigits(w, 1) == w % 10 && LowDigits(w, 3) == w % 1000
  {
    assert DropDigits(w, 4) == DropDigits(w / 10, 3);
    assert DropDigits(w, 3) == DropDigits(w / 10, 2) == DropDigits(w / 10 / 10, 1);
    assert DropDigits(w / 10 / 10, 1) == DropDigits(w / 10 / 10 / 10, 0) == w / 10 / 10 / 10;
    assert DropDigits(w / 10, 3) == DropDigits(w / 10 / 10, 2) == DropDigits(w / 10 / 10 / 10, 1);
    assert DropDigits(w / 10 / 10 / 10, 1) == DropDigits(w / 10 / 10 / 10 / 10, 0);
    assert LowDigits(w, 3) == LowDigits(w / 10, 2) * 10 + w % 10;
    assert LowDigits(w / 10, 2) == LowDigits(w / 10 / 10, 1) * 10 + w / 10 % 10;
    assert LowDigits(w / 10 / 10, 1) == w / 10 / 10 % 10;
  }

  /** The first `k` digits of the rendering of `w` spell `w` without its last `|s| - k` digits. */
  lemma LeadingDigits(w: nat, k: nat)
    requires 0 < k <= |NatToDecimal(w)|
    ensures var s := NatToDecimal(w);
      AllDigits(s[..k]) && DigitsValue(s[..k]) == DropDigits(w, |s| - k)
  {
    var s := NatToDecimal(w);
    DecimalPrefix(w, |s| - k);
    DecimalValue(DropDigits(w, |s| - k));
  }

  /**
   * A five- or six-digit word is read from its rendering as opcode
   * `w / 10000`, register `w / 1000 % 10` and address `w % 1000`.
   */
  lemma DecodeFiveOrSixDigits(w: nat)
    requires 10000 <= w < 1000000
    ensures DecodeText(w) == Some(Instruction(w / 10000, w / 1000 % 10, w % 1000))
  {
    var s := NatToDecimal(w);
    DigitCount(w);
    DropLowLiterals(w);
    DropLowLiterals(w / 1000);
    if |s| == 6 {
      LeadingDigits(w, 2);
      SliceValue(w, 2, 3);
      SliceValue(w, 3, 6);
    } else {
      LeadingDigits(w, 1);
      SliceValue(w, 1, 2);
      SliceValue(w, 2, 5);
    }
  }

  /** `NumDigits` counts the characters of `to_string`. */
  lemma {:induction false} NumDigitsLength(n: nat)
    ensures NumDigits(n) == |NatToDecimal(n)|
  {
    if n >= 10 {
      NumDigitsLength(n / 10);
    }
  }

  /**
   * A word of seven or more digits is read from its first five: the opcode
   * is the leading digit, the register the second, the address the next
   * three; the digits after the fifth are ignored.
   */
  lemma DecodeLongWords(w: nat)
    requires 1000000 <= w
    ensures var len := |NatToDecimal(w)|;
      len >= 7 && DecodeText(w) == Some(Instruction(
        DropDigits(w, len - 1), DropDigits(w, len - 2) % 10, DropDigits(w, len - 5) % 1000))
  {
    var len := |NatToDecimal(w)|;
    DigitCount(w);
    LeadingDigits(w, 1);
    SliceValue(w, 1, 2);
    SliceValue(w, 2, 5);
    DropLowLiterals(DropDigits(w, len - 2));
    DropLowLiterals(DropDigits(w, len - 5));
  }

  /** The arithmetic decoding the machine uses is the source's decoding of the rendering. */
  lemma DecodeMatchesText(w: nat)
    requires Decodable(w)
    ensures Decode(w) == DecodeText(w)
  {
    DigitCount(w);
    if 10000 <= w < 1000000 {
      DecodeFiveOrSixDigits(w);
    } else if 1000000 <= w {
      NumDigitsLength(w);
      DecodeLongWords(w);
    }
  }

  // ---------------------------------------------------------------------
  // One instruction
  // ---------------------------------------------------------------------

  /** The word at the counter decodes to `ins`. */
  predicate AtCounter(m: Machine, ins: Instruction)
    requires Valid(m) && Executable(m)
  {
    Decode(m.memory[m.programCounter]) == Some(ins)
  }

  /**
   * ADD, SUB, MULT, DIV and LOAD change `registers[reg]` alone and move the
   * counter to the next word.
   */
  lemma RegisterStep(m: Machine, input: string, op: nat, reg: nat, addr: nat)
    requires Valid(m) && Executable(m) && AtCounter(m, Instruction(op, reg, addr))
    requires op == 1 || op == 2 || op == 3 || op == 8 || op == 4
    ensures var r := Step(m, input); var x, y := m.registers[reg], m.memory[addr];
      && r.result == Ok(FullCycle) && r.printed == None
      && r.machine.programCounter == m.programCounter + 1
      && r.machine.memory == m.memory && r.machine.conditionCodes == m.conditionCodes
      && r.machine.lastLogicalAddr == m.lastLogicalAddr
      && (forall j :: 0 <= j < REGISTER_COUNT && j != reg ==> r.machine.registers[j] == m.registers[j])
      && (op == 1 ==> r.machine.registers[reg] == x + y)
      && (op == 2 ==> r.machine.registers[reg] == x - y)
      && (op == 3 ==> r.machine.registers[reg] == x * y)
      && (op == 8 ==> r.machine.registers[reg] == x / y)
      && (op == 4 ==> r.machine.registers[reg] == y)
  {
  }

  /** STORE changes `memory[addr]` alone, to the register's value. */
  lemma StoreStep(m: Machine, input: string, reg: nat, addr: nat)
    requires Valid(m) && Executable(m) && AtCounter(m, Instruction(5, reg, addr))
    ensures var r := Step(m, input);
      && r.result == Ok(FullCycle) && r.printed == None
      && r.machine.programCounter == m.programCounter + 1
      && r.machine.registers == m.registers && r.machine.conditionCodes == m.conditionCodes
      && r.machine.memory[addr] == m.registers[reg]
      && (forall a :: 0 <= a < MEMORY_SIZE && a != addr ==> r.machine.memory[a] == m.memory[a])
  {
  }

  /** COMP sets the five comparison codes and code 5, and changes no word. */
  lemma CompareStep(m: Machine, input: string, reg: nat, addr: nat)
    requires Valid(m) && Executable(m) && AtCounter(m, Instruction(6, reg, addr))
    ensures var r := Step(m, input); var x, y, cc := m.registers[reg], m.memory[addr], r.machine.conditionCodes;
      && r.result == Ok(FullCycle)
      && r.machine.programCounter == m.programCounter + 1
      && r.machine.registers == m.registers && r.machine.memory == m.memory
      && (cc[0] <==> x < y) && (cc[1] <==> x <= y) && (cc[2] <==> x == y)
      && (cc[3] <==> x > y) && (cc[4] <==> x >= y) && cc[5]
  {
  }

  /** BC jumps to `addr` exactly when its code holds or is code 5; otherwise it falls through. */
  lemma BranchStep(m: Machine, input: string, reg: nat, addr: nat)
    requires Valid(m) && Executable(m) && AtCounter(m, Instruction(7, reg, addr))
    ensures var r := Step(m, input); var taken := m.conditionCodes[reg] || reg == 5;
      && (taken ==> r.result == Ok(Continue) && r.machine == m.(programCounter := addr))
      && (!taken ==> r.result == Ok(FullCycle) && r.machine == m.(programCounter := m.programCounter + 1))
  {
  }

  /** A one-digit word or opcode 0 halts, with the machine as it was and the counter not advanced. */
  lemma HaltStep(m: Machine, input: string)
    requires Valid(m) && Executable(m)
    requires var d := Decode(m.memory[m.programCounter]); d.None? || d.value.opcode == 0
    ensures Step(m, input) == StepResult(m, Ok(Break), None)
  {
  }

  /** An opcode above 10 is an error and changes nothing. */
  lemma InvalidOpcodeStep(m: Machine, input: string, ins: Instruction)
    requires Valid(m) && Executable(m) && AtCounter(m, ins) && ins.opcode > 10
    ensures Step(m, input) == StepResult(m, Err(InvalidOpcode), None)
  {
  }

  /** READ stores the trimmed input line when it is a `usize`, and is an error otherwise. */
  lemma ReadStep(m: Machine, input: string, reg: nat, addr: nat)
    requires Valid(m) && Executable(m) && AtCounter(m, Instruction(9, reg, addr))
    ensures var r := Step(m, input);
      match ParseUsize(Trim(input))
      case None => r == StepResult(m, Err(InvalidInput), None)
      case Some(v) => r.result == Ok(FullCycle) && r.machine == m.(memory := m.memory[addr := v], programCounter := m.programCounter + 1)
  {
  }

  /** PRINT writes out `memory[addr]` and changes nothing but the counter. */
  lemma PrintStep(m: Machine, input: string, reg: nat, addr: nat)
    requires Valid(m) && Executable(m) && AtCounter(m, Instruction(10, reg, addr))
    ensures Step(m, input) == StepResult(m.(programCounter := m.programCounter + 1), Ok(FullCycle), Some(m.memory[addr]))
  {
  }

  // ---------------------------------------------------------------------
  // A run
  // ---------------------------------------------------------------------

  /** The word at the counter halts the machine. */
  predicate Halts(m: Machine)
    requires Valid(m)
  {
    Executable(m) && var d := Decode(m.memory[m.programCounter]); d.None? || d.value.opcode == 0
  }

  /** The word at the counter makes `execute_line` return the error `f`. */
  predicate FaultsWith(m: Machine, f: Fault)
    requires Valid(m)
  {
    Executable(m) && var d := Decode(m.memory[m.programCounter]);
    d.Some? && (if f == InvalidOpcode then d.value.opcode > 10 else d.value.opcode == 9)
  }

  /**
   * Why a run stopped: it finished because the counter reached the last
   * loaded address or stands on a halt; it faulted on the word at the
   * counter; it aborted on a word that would panic; or it ran out of steps
   * with the counter still below the last address.
   */
  predicate StoppedProperly(r: RunResult)
    requires Valid(r.machine)
  {
    var e := r.machine;
    && (r.status == Finished ==> e.programCounter >= e.lastLogicalAddr || Halts(e))
    && (r.status.Faulted? ==> e.programCounter < e.lastLogicalAddr && FaultsWith(e, r.status.fault))
    && (r.status == Aborted ==> e.programCounter < e.lastLogicalAddr && !Executable(e))
    && (r.status == OutOfFuel ==> e.programCounter < e.lastLogicalAddr)
  }

  /** Every run stops for one of the reasons of `StoppedProperly`. */
  lemma {:induction false} RunEnds(m: Machine, inputs: seq<string>, fuel: nat)
    requires Valid(m)
    ensures StoppedProperly(Run(m, inputs, fuel))
    decreases fuel, 1
  {
    if m.programCounter < m.lastLogicalAddr && fuel > 0 && Executable(m) {
      StepStops(m, NextLine(inputs));
      ProceedEnds(m, inputs, fuel, Step(m, NextLine(inputs)));
    }
  }

  /** `RunEnds` for the outcome of one step: a halt or a fault stops properly, otherwise the tail does. */
  lemma {:induction false} ProceedEnds(m: Machine, inputs: seq<string>, fuel: nat, step: StepResult)
    requires Valid(m) && m.programCounter < m.lastLogicalAddr && fuel > 0 && Executable(m) && Valid(step.machine)
    requires step.result == Ok(Break) ==> Halts(m)
    requires step.result.Err? ==> FaultsWith(m, step.result.error)
    ensures StoppedProperly(Proceed(m, inputs, fuel, step))
    decreases fuel, 0
  {
    if step.result.Ok? && step.result.value != Break {
      RunEnds(step.machine, Remaining(m, inputs), fuel - 1);
    }
  }

  /** A step that halts stands on a halt; a step that fails stands on a faulting word. */
  lemma StepStops(m: Machine, input: string)
    requires Valid(m) && Executable(m)
    ensures var r := Step(m, input);
      && (r.result == Ok(Break) ==> Halts(m))
      && (r.result.Err? ==> FaultsWith(m, r.result.error))
  {
  }

  /** The step bound only cuts a run short: a run that ended within it ends the same with more. */
  lemma {:induction false} RunMoreFuel(m: Machine, inputs: seq<string>, fuel: nat, more: nat)
    requires Valid(m) && Run(m, inputs, fuel).status != OutOfFuel && fuel <= more
    ensures Run(m, inputs, more) == Run(m, inputs, fuel)
    decreases fuel, 1
  {
    if m.programCounter < m.lastLogicalAddr && Executable(m) {
      ProceedMoreFuel(m, inputs, fuel, more, Step(m, NextLine(inputs)));
    }
  }

  /** `RunMoreFuel` for the outcome of one step. */
  lemma {:induction false} ProceedMoreFuel(m: Machine, inputs: seq<string>, fuel: nat, more: nat, step: StepResult)
    requires Valid(m) && m.programCounter < MEMORY_SIZE && Valid(step.machine) && 0 < fuel <= more
    requires Proceed(m, inputs, fuel, step).status != OutOfFuel
    ensures Proceed(m, inputs, more, step) == Proceed(m, inputs, fuel, step)
    decreases fuel, 0
  {
    if step.result.Ok? && step.result.value != Break {
      var rest, out := Remaining(m, inputs), Printed(step.printed);
      var short, long := Run(step.machine, rest, fuel - 1), Run(step.machine, rest, more - 1);
      assert Proceed(m, inputs, fuel, step) == short.(printed := out + short.printed);
      assert Proceed(m, inputs, more, step) == long.(printed := out + long.printed);
      RunMoreFuel(step.machine, rest, fuel - 1, more - 1);
    }
  }

  /** How a run with steps left starts: an abort, a fault or a halt stops it before any change. */
  lemma RunFirstStep(m: Machine, inputs: seq<string>, fuel: nat)
    requires Valid(m) && m.programCounter < m.lastLogicalAddr && fuel > 0
    ensures !Executable(m) ==> Run(m, inputs, fuel) == RunResult(m, Aborted, [])
    ensures Executable(m) ==> var step := Step(m, NextLine(inputs));
      && (step.result.Err? ==> Run(m, inputs, fuel) == RunResult(m, Faulted(step.result.error), []))
      && (step.result == Ok(Break) ==> Run(m, inputs, fuel) == RunResult(m, Finished, []))
  {
  }

  /** A run changes no register, code or word when it starts at or past the last address. */
  lemma RunPastEnd(m: Machine, inputs: seq<string>, fuel: nat)
    requires Valid(m) && m.programCounter >= m.lastLogicalAddr
    ensures Run(m, inputs, fuel) == RunResult(m, Finished, [])
  {
  }

  // ---------------------------------------------------------------------
  // Loading
  // ---------------------------------------------------------------------

  /** A data line: one that stores a word. */
  predicate DataLine(line: string) {
    !IsCounterLine(line) && Loadable(line)
  }

  /** A data line for address `a`. */
  predicate DataLineAt(line: string, a: nat) {
    DataLine(line) && LineAddress(line) == a
  }

  /** One line changes the word at `a` only when it is a data line for `a`. */
  lemma LoadLineWord(m: Machine, line: string, a: nat)
    requires Valid(m) && Loadable(line) && a < MEMORY_SIZE
    ensures LoadLine(m, line).memory[a] == if DataLineAt(line, a) then LineWord(line) else m.memory[a]
  {
  }

  /** A `-1` line sets only the counter; a data line sets only a word and the last address. */
  lemma LoadLineFields(m: Machine, line: string)
    requires Valid(m) && Loadable(line)
    ensures var r := LoadLine(m, line);
      && r.registers == m.registers && r.conditionCodes == m.conditionCodes
      && r.programCounter == (if IsCounterLine(line) then CounterValue(line) else m.programCounter)
      && r.lastLogicalAddr == (if DataLine(line) then LineAddress(line) else m.lastLogicalAddr)
  {
  }

  /** Line `i` is the last `-1` line. */
  predicate LastCounterLine(lines: seq<string>, i: int) {
    0 <= i < |lines| && IsCounterLine(lines[i]) && forall k :: i < k < |lines| ==> !IsCounterLine(lines[k])
  }

  /** Line `i` is the last data line. */
  predicate LastDataLine(lines: seq<string>, i: int) {
    0 <= i < |lines| && DataLine(lines[i]) && forall k :: i < k < |lines| ==> !DataLine(lines[k])
  }

  /** Line `i` is the last data line for address `a`. */
  predicate LastDataLineAt(lines: seq<string>, i: int, a: nat) {
    0 <= i < |lines| && DataLineAt(lines[i], a) && forall k :: i < k < |lines| ==> !DataLineAt(lines[k], a)
  }

  /** Loading the lines of `lines` is loading all but the last, then the last. */
  lemma LoadLast(m: Machine, lines: seq<string>)
    requires Valid(m) && AllLoadable(lines) && lines != []
    ensures var n := |lines| - 1; AllLoadable(lines[..n])
    ensures var n := |lines| - 1; LoadLines(m, lines) == LoadLine(LoadLines(m, lines[..n]), lines[n])
    ensures var n := |lines| - 1; forall i :: 0 <= i < n ==> lines[..n][i] == lines[i]
  {
  }

  /**
   * After loading, the counter is the value of the last `-1` line, or as it
   * was when there is none; registers and condition codes are untouched.
   */
  lemma {:induction false} LoadLinesCounter(m: Machine, lines: seq<string>)
    requires Valid(m) && AllLoadable(lines)
    ensures var r := LoadLines(m, lines);
      && r.registers == m.registers && r.conditionCodes == m.conditionCodes
      && ((forall i :: 0 <= i < |lines| ==> !IsCounterLine(lines[i])) ==> r.programCounter == m.programCounter)
      && (forall i :: LastCounterLine(lines, i) ==> r.programCounter == CounterValue(lines[i]))
    decreases |lines|
  {
    if lines != [] {
      var n := |lines| - 1;
      LoadLast(m, lines);
      LoadLinesCounter(m, lines[..n]);
      LoadLineFields(LoadLines(m, lines[..n]), lines[n]);
      var r := LoadLines(m, lines);
      forall i | LastCounterLine(lines, i) ensures r.programCounter == CounterValue(lines[i]) {
        if IsCounterLine(lines[n]) {
          assert i == n;
        } else {
          assert LastCounterLine(lines[..n], i) && lines[..n][i] == lines[i];
        }
      }
    }
  }

  /**
   * After loading, the last logical address is the address of the last
   * data line, or as it was when there is none.
   */
  lemma {:induction false} LoadLinesLast(m: Machine, lines: seq<string>)
    requires Valid(m) && AllLoadable(lines)
    ensures var r := LoadLines(m, lines);
      && ((forall i :: 0 <= i < |lines| ==> !DataLine(lines[i])) ==> r.lastLogicalAddr == m.lastLogicalAddr)
      && (forall i :: LastDataLine(lines, i) ==> r.lastLogicalAddr == LineAddress(lines[i]))
    decreases |lines|
  {
    if lines != [] {
      var n := |lines| - 1;
      LoadLast(m, lines);
      LoadLinesLast(m, lines[..n]);
      LoadLineFields(LoadLines(m, lines[..n]), lines[n]);
      var r := LoadLines(m, lines);
      forall i | LastDataLine(lines, i) ensures r.lastLogicalAddr == LineAddress(lines[i]) {
        if DataLine(lines[n]) {
          assert i == n;
        } else {
          assert LastDataLine(lines[..n], i) && lines[..n][i] == lines[i];
        }
      }
    }
  }

  /**
   * After loading, each word is the word of the last data line for its
   * address, or as it was when there is none.
   */
  lemma {:induction false} LoadLinesWord(m: Machine, lines: seq<string>, a: nat)
    requires Valid(m) && AllLoadable(lines) && a < MEMORY_SIZE
    ensures var r := LoadLines(m, lines);
      && ((forall i :: 0 <= i < |lines| ==> !DataLineAt(lines[i], a)) ==> r.memory[a] == m.memory[a])
      && (forall i :: LastDataLineAt(lines, i, a) ==> r.memory[a] == LineWord(lines[i]))
    decreases |lines|
  {
    if lines != [] {
      var n := |lines| - 1;
      LoadLast(m, lines);
      LoadLinesWord(m, lines[..n], a);
      var prev := LoadLines(m, lines[..n]);
      LoadLineWord(prev, lines[n], a);
      LastDataLineAtSplit(lines, a);
      var r := LoadLines(m, lines);
      forall i | LastDataLineAt(lines, i, a) ensures r.memory[a] == LineWord(lines[i]) {
        if !DataLineAt(lines[n], a) {
          assert LastDataLineAt(lines[..n], i, a) && lines[..n][i] == lines[i];
        }
      }
    }
  }

  /** The last data line for `a` is the final line when that is one, and otherwise the last one before it. */
  lemma LastDataLineAtSplit(lines: seq<string>, a: nat)
    requires lines != []
    ensures var n := |lines| - 1;
      && (DataLineAt(lines[n], a) ==> forall i :: LastDataLineAt(lines, i, a) ==> i == n)
      && (!DataLineAt(lines[n], a) ==> forall i :: LastDataLineAt(lines, i, a) ==> LastDataLineAt(lines[..n], i, a))
  {
    var n := |lines| - 1;
    if !DataLineAt(lines[n], a) {
      forall i | LastDataLineAt(lines, i, a) ensures LastDataLineAt(lines[..n], i, a) {
        assert forall k :: i < k < n ==> lines[..n][k] == lines[k];
      }
    }
  }

  /** A file written one line per record, each ended by a line feed, loads exactly those records. */
  lemma ParseFileOfLines(m: Machine, records: seq<string>)
    requires Valid(m) && AllLoadable(records)
    requires forall i :: 0 <= i < |records| ==> '\n' !in records[i] && !EndsWithCr(records[i])
    ensures AllLoadable(Lines(Join(records + [""], "\n")))
    ensures ParseFile(m, Join(records + [""], "\n")) == LoadLines(m, records)
  {
    LinesOfTerminated(records);
  }
}

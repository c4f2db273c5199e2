/**
 * The SMAC0 machine as values: a thousand words of memory, four registers,
 * six condition codes, a program counter and the address of the last word
 * loaded. An instruction word is decoded from its decimal rendering, a step
 * executes one word, a run steps until the counter passes the last loaded
 * address, a halt or an error, and loading reads the text of an object file.
 *
 * Where the program would panic (an index out of range, an arithmetic
 * overflow or underflow, a division by zero, a failed `unwrap`) the
 * functions here carry a precondition; a run reports such a step as
 * `Aborted` instead of taking it.
 */
module Smac0Spec {
  import opened Wrappers
  import opened Strings

  const MEMORY_SIZE: nat := 1000
  const REGISTER_COUNT: nat := 4
  const CONDITION_COUNT: nat := 6

  datatype Machine = Machine(
    memory: seq<nat>,
    registers: seq<nat>,
    conditionCodes: seq<bool>,
    programCounter: nat,
    lastLogicalAddr: nat)

  /** The shapes of the fixed-size arrays, and every word a `usize`. */
  predicate Valid(m: Machine) {
    && |m.memory| == MEMORY_SIZE
    && |m.registers| == REGISTER_COUNT
    && |m.conditionCodes| == CONDITION_COUNT
    && m.programCounter <= MEMORY_SIZE
    && m.lastLogicalAddr < MEMORY_SIZE
    && Words(m.memory)
    && Words(m.registers)
  }

  /** `SMAC0::new`. */
  const BLANK: Machine := Machine(
    seq(MEMORY_SIZE, _ => 0), seq(REGISTER_COUNT, _ => 0), seq(CONDITION_COUNT, _ => false), 0, 0)

  // ---------------------------------------------------------------------
  // Decoding
  // ---------------------------------------------------------------------

  datatype Instruction = Instruction(opcode: nat, register: nat, address: nat)

  /**
   * The words `execute_line` can slice: one digit, or five or more. A word
   * of two to four digits makes the slice `[2..=4]` run past its end.
   */
  predicate Decodable(w: nat) {
    w < 10 || 10000 <= w
  }

  /** How many digits `to_string` gives, by the size of the word. */
  lemma DigitCount(w: nat)
    ensures var len := |NatToDecimal(w)|;
      && (len == 1 <==> w < 10)
      && (len == 5 <==> 10000 <= w < 100000)
      && (len == 6 <==> 100000 <= w < 1000000)
      && (len >= 7 <==> 1000000 <= w)
      && (2 <= len <= 4 <==> 10 <= w < 10000)
  {
    var len := |NatToDecimal(w)|;
    DecimalLength(w);
    assert Pow10(1) == 10 && Pow10(4) == 10000 && Pow10(5) == 100000 && Pow10(6) == 1000000;
    if len <= 4 {
      Pow10Mono(len, 4);
      if len > 1 {
        Pow10Mono(1, len - 1);
      }
    } else if len >= 7 {
      Pow10Mono(6, len - 1);
    }
  }

  /**
   * The decoding of `execute_line` as the source writes it, on the word's
   * decimal rendering `s`: one digit means no instruction (a halt); six
   * digits give the opcode `s[..=1]`, the register `s[2..=2]` and the
   * address `s[3..=5]`; any other length gives `s[..=0]`, `s[1..=1]` and
   * `s[2..=4]`. Each slice is a non-empty run of at most three digits, so
   * its `parse` cannot fail.
   */
  function DecodeText(w: nat): Option<Instruction>
    requires Decodable(w)
  {
    var s := NatToDecimal(w);
    DigitCount(w);
    if |s| == 1 then None
    else if |s| == 6 then Some(Instruction(DigitsValue(s[..2]), DigitsValue(s[2..3]), DigitsValue(s[3..6])))
    else Some(Instruction(DigitsValue(s[..1]), DigitsValue(s[1..2]), DigitsValue(s[2..5])))
  }

  /** The number of decimal digits of `n`. */
  function NumDigits(n: nat): (len: nat)
    ensures len >= 1
  {
    if n < 10 then 1 else 1 + NumDigits(n / 10)
  }

  lemma {:induction false} NumDigitsBound(n: nat, k: nat)
    requires Pow10(k) <= n
    ensures NumDigits(n) > k
  {
    if k > 0 {
      NumDigitsBound(n / 10, k - 1);
    }
  }

  /**
   * The same decoding in arithmetic (`DecodeMatchesText` proves the two
   * agree): five- and six-digit words split into `w / 10000`,
   * `w / 1000 % 10` and `w % 1000`; a longer word is decoded from its first
   * five digits.
   */
  function Decode(w: nat): (r: Option<Instruction>)
    requires Decodable(w)
    ensures r.None? <==> w < 10
    ensures r.Some? ==> r.value.register < 10 && r.value.address < MEMORY_SIZE
  {
    if w < 10 then None
    else if w < 1000000 then Some(Instruction(w / 10000, w / 1000 % 10, w % 1000))
    else
      var len := NumDigits(w);
      NumDigitsBound(w, 6);
      Some(Instruction(DropDigits(w, len - 1), DropDigits(w, len - 2) % 10, DropDigits(w, len - 5) % 1000))
  }

  // ---------------------------------------------------------------------
  // One step
  // ---------------------------------------------------------------------

  /** The `Ok` strings of `execute_line`: "break", "continue", "full cycle done". */
  datatype Signal = Break | Continue | FullCycle

  /** The `Err`s of `execute_line`: "invalid opcode", and a READ line that is not a `usize`. */
  datatype Fault = InvalidOpcode | InvalidInput

  /** The machine after a step, what the step returned, and the word PRINT wrote out. */
  datatype StepResult = StepResult(machine: Machine, result: Result<Signal, Fault>, printed: Option<nat>)

  predicate UsesRegister(opcode: nat) {
    opcode == 1 || opcode == 2 || opcode == 3 || opcode == 8 || opcode == 4 || opcode == 5 || opcode == 6
  }

  /** The register arithmetic stays within `usize` and never divides by zero. */
  predicate ArithmeticDefined(opcode: nat, x: nat, y: nat) {
    && (opcode == 1 ==> x + y <= USIZE_MAX)
    && (opcode == 2 ==> x >= y)
    && (opcode == 3 ==> x * y <= USIZE_MAX)
    && (opcode == 8 ==> y != 0)
  }

  /** The instruction indexes no array out of range and no arithmetic panics. */
  predicate InstructionDefined(m: Machine, ins: Instruction)
    requires Valid(m) && ins.address < MEMORY_SIZE
  {
    && (UsesRegister(ins.opcode) ==>
          ins.register < REGISTER_COUNT
          && ArithmeticDefined(ins.opcode, m.registers[ins.register], m.memory[ins.address]))
    && (ins.opcode == 7 ==> ins.register < CONDITION_COUNT)
  }

  /** `execute_line` runs without panicking. */
  predicate Executable(m: Machine)
    requires Valid(m)
  {
    && m.programCounter < MEMORY_SIZE
    && Decodable(m.memory[m.programCounter])
    && match Decode(m.memory[m.programCounter])
       case None => true
       case Some(ins) => InstructionDefined(m, ins)
  }

  /** The results of COMP: `<`, `<=`, `==`, `>`, `>=`, and an always-true code 5. */
  function Compare(x: nat, y: nat): seq<bool> {
    [x < y, x <= y, x == y, x > y, x >= y, true]
  }

  /** The end of a full cycle: the counter moves to the next word. */
  function Advance(m: Machine): (r: StepResult)
    requires Valid(m) && m.programCounter < MEMORY_SIZE
    ensures Valid(r.machine)
  {
    StepResult(m.(programCounter := m.programCounter + 1), Ok(FullCycle), None)
  }

  /** Every entry of a `usize` array is at most `USIZE_MAX`. */
  predicate Words(s: seq<nat>) {
    forall i :: 0 <= i < |s| ==> s[i] <= USIZE_MAX
  }

  function SetRegister(m: Machine, reg: nat, v: nat): (r: Machine)
    requires Valid(m) && reg < REGISTER_COUNT && v <= USIZE_MAX
    ensures Valid(r)
  {
    assert Words(m.registers);
    assert Words(m.registers[reg := v]);
    m.(registers := m.registers[reg := v])
  }

  function SetWord(m: Machine, addr: nat, v: nat): (r: Machine)
    requires Valid(m) && addr < MEMORY_SIZE && v <= USIZE_MAX
    ensures Valid(r)
  {
    assert Words(m.memory);
    assert Words(m.memory[addr := v]);
    m.(memory := m.memory[addr := v])
  }

  lemma QuotientBound(x: nat, y: nat)
    requires y > 0
    ensures x / y <= x
  {
    var q, r := x / y, x % y;
    assert x == y * q + r;
    var k: nat := y - 1;
    assert y * q == q + k * q;
  }

  /** The register results of ADD (1), SUB (2), MULT (3), DIV (8) and LOAD (4), in `usize`. */
  function Arithmetic(opcode: nat, x: nat, y: nat): (v: nat)
    requires UsesRegister(opcode) && opcode != 5 && opcode != 6 && ArithmeticDefined(opcode, x, y)
    requires x <= USIZE_MAX && y <= USIZE_MAX
    ensures v <= USIZE_MAX
  {
    if opcode == 1 then x + y
    else if opcode == 2 then x - y
    else if opcode == 3 then x * y
    else if opcode == 8 then QuotientBound(x, y); x / y
    else y
  }

  /**
   * `execute_line`: decode the word at the program counter and execute it.
   * `input` stands for the line READ takes from standard input.
   */
  function Step(m: Machine, input: string): (r: StepResult)
    requires Valid(m) && Executable(m)
    ensures Valid(r.machine)
    ensures r.result.Err? || r.result == Ok(Break) ==> r.machine == m
    ensures r.printed.Some? ==> r.result == Ok(FullCycle)
  {
    match Decode(m.memory[m.programCounter])
    case None => StepResult(m, Ok(Break), None)
    case Some(ins) => Perform(m, ins, input)
  }

  function Perform(m: Machine, ins: Instruction, input: string): (r: StepResult)
    requires Valid(m) && m.programCounter < MEMORY_SIZE
    requires ins.address < MEMORY_SIZE && InstructionDefined(m, ins)
    ensures Valid(r.machine)
    ensures r.result.Err? || r.result == Ok(Break) ==> r.machine == m
    ensures r.printed.Some? ==> r.result == Ok(FullCycle)
  {
    var op, reg, addr := ins.opcode, ins.register, ins.address;
    match op
    case 0 => StepResult(m, Ok(Break), None)
    case 1 | 2 | 3 | 8 | 4 => Advance(SetRegister(m, reg, Arithmetic(op, m.registers[reg], m.memory[addr])))
    case 5 => Advance(SetWord(m, addr, m.registers[reg]))
    case 6 => Advance(m.(conditionCodes := Compare(m.registers[reg], m.memory[addr])))
    case 7 =>
      if m.conditionCodes[reg] || reg == 5 then StepResult(m.(programCounter := addr), Ok(Continue), None)
      else Advance(m)
    case 9 => Read(m, addr, input)
    case 10 => StepResult(m.(programCounter := m.programCounter + 1), Ok(FullCycle), Some(m.memory[addr]))
    case _ => StepResult(m, Err(InvalidOpcode), None)
  }

  /** READ: the trimmed line, when it parses as a `usize`, goes to `memory[addr]`. */
  function Read(m: Machine, addr: nat, input: string): (r: StepResult)
    requires Valid(m) && m.programCounter < MEMORY_SIZE && addr < MEMORY_SIZE
    ensures Valid(r.machine)
  {
    var value := ParseUsize(Trim(input));
    if value.None? then StepResult(m, Err(InvalidInput), None)
    else Advance(SetWord(m, addr, value.value))
  }

  // ---------------------------------------------------------------------
  // A run
  // ---------------------------------------------------------------------

  /**
   * How a run ended: `Finished` is `execute` returning `Ok(())` (the counter
   * reached the last address, or a halt), `Faulted` the error of a step,
   * `OutOfFuel` a run cut short by the step bound, and `Aborted` a step that
   * would panic.
   */
  datatype Status = Finished | Faulted(fault: Fault) | OutOfFuel | Aborted

  datatype RunResult = RunResult(machine: Machine, status: Status, printed: seq<nat>)

  /** The word at the counter is a READ, which consumes one line of input. */
  predicate ReadsInput(m: Machine)
    requires Valid(m) && m.programCounter < MEMORY_SIZE
  {
    var w := m.memory[m.programCounter];
    Decodable(w) && Decode(w).Some? && Decode(w).value.opcode == 9
  }

  /** The next line of input; at the end of input `read_line` leaves the line empty. */
  function NextLine(inputs: seq<string>): string {
    if inputs == [] then "" else inputs[0]
  }

  /** The input left after the step at the counter. */
  function Remaining(m: Machine, inputs: seq<string>): seq<string>
    requires Valid(m) && m.programCounter < MEMORY_SIZE
  {
    if ReadsInput(m) && inputs != [] then inputs[1..] else inputs
  }

  function Printed(out: Option<nat>): seq<nat> {
    if out.Some? then [out.value] else []
  }

  /**
   * `execute`: while the counter is below the last loaded address, step;
   * stop at a halt or an error. `inputs` are the lines READ takes in order;
   * `fuel` bounds the number of steps.
   */
  function Run(m: Machine, inputs: seq<string>, fuel: nat): (r: RunResult)
    requires Valid(m)
    ensures Valid(r.machine)
    decreases fuel, 1
  {
    if m.programCounter >= m.lastLogicalAddr then RunResult(m, Finished, [])
    else if fuel == 0 then RunResult(m, OutOfFuel, [])
    else if !Executable(m) then RunResult(m, Aborted, [])
    else Proceed(m, inputs, fuel, Step(m, NextLine(inputs)))
  }

  /** What the loop does with the outcome `step` of the word at the counter. */
  function Proceed(m: Machine, inputs: seq<string>, fuel: nat, step: StepResult): (r: RunResult)
    requires Valid(m) && m.programCounter < MEMORY_SIZE && Valid(step.machine) && fuel > 0
    ensures Valid(r.machine)
    decreases fuel, 0
  {
    match step.result
    case Err(f) => RunResult(m, Faulted(f), [])
    case Ok(signal) =>
      if signal == Break then RunResult(m, Finished, [])
      else
        var tail := Run(step.machine, Remaining(m, inputs), fuel - 1);
        tail.(printed := Printed(step.printed) + tail.printed)
  }

  // ---------------------------------------------------------------------
  // Loading an object file
  // ---------------------------------------------------------------------

  /** A line that sets the program counter. */
  predicate IsCounterLine(line: string) {
    StartsWith(line, "-1")
  }

  /**
   * The slices and `unwrap`s of `parse_file` succeed: `-1 ddd` needs three
   * digits at 3..=5; `aaa w...` needs an address at 0..=2 and a word from 4 on.
   */
  predicate Loadable(line: string) {
    if IsCounterLine(line) then |line| >= 6 && ParseUsize(line[3..6]).Some?
    else |line| >= 4 && ParseUsize(line[..3]).Some? && ParseUsize(line[4..]).Some?
  }

  predicate AllLoadable(lines: seq<string>) {
    forall i :: 0 <= i < |lines| ==> Loadable(lines[i])
  }

  /** The counter value of a `-1` line. */
  function CounterValue(line: string): (pc: nat)
    requires IsCounterLine(line) && Loadable(line)
    ensures pc < MEMORY_SIZE
  {
    ParseUsizeBound(line[3..6]);
    ParseUsize(line[3..6]).value
  }

  /** The address of a data line. */
  function LineAddress(line: string): (addr: nat)
    requires !IsCounterLine(line) && Loadable(line)
    ensures addr < MEMORY_SIZE
  {
    ParseUsizeBound(line[..3]);
    ParseUsize(line[..3]).value
  }

  /** The word of a data line. */
  function LineWord(line: string): (w: nat)
    requires !IsCounterLine(line) && Loadable(line)
    ensures w <= USIZE_MAX
  {
    ParseUsize(line[4..]).value
  }

  /** One line of `parse_file`. */
  function LoadLine(m: Machine, line: string): (r: Machine)
    requires Valid(m) && Loadable(line)
    ensures Valid(r)
  {
    if IsCounterLine(line) then m.(programCounter := CounterValue(line))
    else
      var addr := LineAddress(line);
      SetWord(m, addr, LineWord(line)).(lastLogicalAddr := addr)
  }

  /** The lines of `parse_file`, in order. */
  function LoadLines(m: Machine, lines: seq<string>): (r: Machine)
    requires Valid(m) && AllLoadable(lines)
    ensures Valid(r)
    decreases |lines|
  {
    if lines == [] then m
    else
      var n := |lines| - 1;
      LoadLine(LoadLines(m, lines[..n]), lines[n])
  }

  /** `parse_file`: the lines of the text, loaded in order. */
  function ParseFile(m: Machine, contents: string): Machine
    requires Valid(m) && AllLoadable(Lines(contents))
  {
    LoadLines(m, Lines(contents))
  }
}

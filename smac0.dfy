/**
 * The SMAC0 machine as the simulator holds it: fixed-size arrays for the
 * memory, the registers and the condition codes, updated in place. Every
 * method is proved to do what the value functions of `Smac0Spec` describe,
 * so the properties proved there in `Smac0Props` hold of the machine.
 */
module Smac0 {
  import opened Wrappers
  import opened Strings
  import opened Smac0Spec
  import opened Smac0Props

  class SMAC0 {
    var memory: array<nat>
    var registers: array<nat>
    var conditionCodes: array<bool>
    var programCounter: nat
    var lastLogicalAddr: nat

    /** The machine as a value. */
    function State(): Machine
      reads this, memory, registers, conditionCodes
    {
      Machine(memory[..], registers[..], conditionCodes[..], programCounter, lastLogicalAddr)
    }

    /** The arrays are distinct and have the machine's shapes. */
    predicate Valid()
      reads this, memory, registers, conditionCodes
    {
      memory != registers && Smac0Spec.Valid(State())
    }

    /** `SMAC0::new`: everything zero and every code false. */
    constructor()
      ensures Valid() && State() == BLANK
      ensures fresh(memory) && fresh(registers) && fresh(conditionCodes)
    {
      memory := new nat[MEMORY_SIZE](_ => 0);
      registers := new nat[REGISTER_COUNT](_ => 0);
      conditionCodes := new bool[CONDITION_COUNT](_ => false);
      programCounter := 0;
      lastLogicalAddr := 0;
      new;
      assert memory[..] == BLANK.memory;
      assert registers[..] == BLANK.registers;
      assert conditionCodes[..] == BLANK.conditionCodes;
    }

    /**
     * `parse_file`: each line either sets the program counter (`-1 ddd`) or
     * stores a word at an address and makes that address the last one.
     */
    method ParseFile(contents: string)
      requires Valid() && AllLoadable(Lines(contents))
      modifies this, memory
      ensures Valid() && State() == Smac0Spec.ParseFile(old(State()), contents)
      ensures memory == old(memory) && registers == old(registers) && conditionCodes == old(conditionCodes)
    {
      var lines := Lines(contents);
      var i := 0;
      while i < |lines|
        invariant 0 <= i <= |lines| && AllLoadable(lines[..i])
        invariant memory == old(memory) && registers == old(registers) && conditionCodes == old(conditionCodes)
        invariant Valid() && State() == LoadLines(old(State()), lines[..i])
      {
        assert lines[..i + 1][..i] == lines[..i];
        assert AllLoadable(lines[..i + 1]);
        LoadLine(lines[i]);
        i := i + 1;
      }
      assert lines[..|lines|] == lines;
    }

    /** The body of the loop of `parse_file`, for one line. */
    method LoadLine(line: string)
      requires Valid() && Loadable(line)
      modifies this, memory
      ensures Valid() && State() == Smac0Spec.LoadLine(old(State()), line)
      ensures memory == old(memory) && registers == old(registers) && conditionCodes == old(conditionCodes)
    {
      if StartsWith(line, "-1") {
        programCounter := CounterValue(line);
      } else {
        var addr := LineAddress(line);
        lastLogicalAddr := addr;
        memory[addr] := LineWord(line);
        assert memory[..] == old(memory[..])[addr := LineWord(line)];
      }
    }

    /**
     * `execute_line`: decode the word at the counter from its decimal
     * rendering and execute it. `input` is the line READ takes from standard
     * input.
     */
    method ExecuteLine(input: string) returns (result: Result<Signal, Fault>, printed: Option<nat>)
      requires Valid() && Executable(State())
      modifies this, memory, registers, conditionCodes
      ensures Valid() && StepResult(State(), result, printed) == Step(old(State()), input)
      ensures memory == old(memory) && registers == old(registers) && conditionCodes == old(conditionCodes)
    {
      var text := NatToDecimal(memory[programCounter]);
      DigitCount(memory[programCounter]);
      DecodeMatchesText(memory[programCounter]);
      if |text| == 1 {
        return Ok(Break), None;
      }
      var opcode, register, address;
      if |text| == 6 {
        opcode, register, address := DigitsValue(text[..2]), DigitsValue(text[2..3]), DigitsValue(text[3..6]);
      } else {
        opcode, register, address := DigitsValue(text[..1]), DigitsValue(text[1..2]), DigitsValue(text[2..5]);
      }
      result, printed := Perform(Instruction(opcode, register, address), input);
    }

    /** The `match` of `execute_line` on a decoded instruction. */
    method Perform(ins: Instruction, input: string) returns (result: Result<Signal, Fault>, printed: Option<nat>)
      requires Valid() && programCounter < MEMORY_SIZE
      requires ins.address < MEMORY_SIZE && InstructionDefined(State(), ins)
      modifies this, memory, registers, conditionCodes
      ensures Valid() && StepResult(State(), result, printed) == Smac0Spec.Perform(old(State()), ins, input)
      ensures memory == old(memory) && registers == old(registers) && conditionCodes == old(conditionCodes)
    {
      match ins.opcode {
        case 0 =>
          return Ok(Break), None;
        case 1 | 2 | 3 | 8 | 4 =>
          result, printed := PerformArithmetic(ins, input);
        case 5 =>
          result, printed := PerformStore(ins, input);
        case 6 =>
          result, printed := PerformCompare(ins, input);
        case 7 =>
          result, printed := PerformBranch(ins, input);
        case 9 =>
          result, printed := PerformRead(ins.address, input);
        case 10 =>
          result, printed := PerformPrint(ins, input);
        case _ =>
          return Err(InvalidOpcode), None;
      }
    }

    /** ADD, SUB, MULT, DIV and LOAD: `registers[register_op]` takes the result, then the counter advances. */
    method PerformArithmetic(ins: Instruction, input: string) returns (result: Result<Signal, Fault>, printed: Option<nat>)
      requires Valid() && programCounter < MEMORY_SIZE
      requires ins.address < MEMORY_SIZE && InstructionDefined(State(), ins)
      requires ins.opcode in {1, 2, 3, 8, 4}
      modifies this, registers
      ensures Valid() && StepResult(State(), result, printed) == Smac0Spec.Perform(old(State()), ins, input)
      ensures memory == old(memory) && registers == old(registers) && conditionCodes == old(conditionCodes)
    {
      var register, address := ins.register, ins.address;
      match ins.opcode {
        case 1 =>
          SetRegister(register, registers[register] + memory[address]);
        case 2 =>
          SetRegister(register, registers[register] - memory[address]);
        case 3 =>
          SetRegister(register, registers[register] * memory[address]);
        case 8 =>
          QuotientBound(registers[register], memory[address]);
          SetRegister(register, registers[register] / memory[address]);
        case 4 =>
          SetRegister(register, memory[address]);
      }
      programCounter := programCounter + 1;
      return Ok(FullCycle), None;
    }

    /** STORE: `memory[mem_op]` takes the register, then the counter advances. */
    method PerformStore(ins: Instruction, input: string) returns (result: Result<Signal, Fault>, printed: Option<nat>)
      requires Valid() && programCounter < MEMORY_SIZE
      requires ins.address < MEMORY_SIZE && InstructionDefined(State(), ins)
      requires ins.opcode == 5
      modifies this, memory
      ensures Valid() && StepResult(State(), result, printed) == Smac0Spec.Perform(old(State()), ins, input)
      ensures memory == old(memory) && registers == old(registers) && conditionCodes == old(conditionCodes)
    {
      SetWord(ins.address, registers[ins.register]);
      programCounter := programCounter + 1;
      return Ok(FullCycle), None;
    }

    /** COMP: the six condition codes, then the counter advances. */
    method PerformCompare(ins: Instruction, input: string) returns (result: Result<Signal, Fault>, printed: Option<nat>)
      requires Valid() && programCounter < MEMORY_SIZE
      requires ins.address < MEMORY_SIZE && InstructionDefined(State(), ins)
      requires ins.opcode == 6
      modifies this, conditionCodes
      ensures Valid() && StepResult(State(), result, printed) == Smac0Spec.Perform(old(State()), ins, input)
      ensures memory == old(memory) && registers == old(registers) && conditionCodes == old(conditionCodes)
    {
      SetCodes(registers[ins.register], memory[ins.address]);
      programCounter := programCounter + 1;
      return Ok(FullCycle), None;
    }

    /** BC: jump when the code holds or is code 5 (`"continue"`); otherwise advance. */
    method PerformBranch(ins: Instruction, input: string) returns (result: Result<Signal, Fault>, printed: Option<nat>)
      requires Valid() && programCounter < MEMORY_SIZE
      requires ins.address < MEMORY_SIZE && InstructionDefined(State(), ins)
      requires ins.opcode == 7
      modifies this
      ensures Valid() && StepResult(State(), result, printed) == Smac0Spec.Perform(old(State()), ins, input)
      ensures memory == old(memory) && registers == old(registers) && conditionCodes == old(conditionCodes)
    {
      if conditionCodes[ins.register] || ins.register == 5 {
        programCounter := ins.address;
        return Ok(Continue), None;
      }
      programCounter := programCounter + 1;
      return Ok(FullCycle), None;
    }

    /** READ: the trimmed line, parsed as a `usize`, goes to `memory[mem_op]`; a bad line is an error. */
    method PerformRead(address: nat, input: string) returns (result: Result<Signal, Fault>, printed: Option<nat>)
      requires Valid() && programCounter < MEMORY_SIZE && address < MEMORY_SIZE
      modifies this, memory
      ensures Valid() && StepResult(State(), result, printed) == Read(old(State()), address, input)
      ensures memory == old(memory) && registers == old(registers) && conditionCodes == old(conditionCodes)
    {
      ghost var m := State();
      var value := ParseUsize(Trim(input));
      if value.None? {
        return Err(InvalidInput), None;
      }
      assert Read(m, address, input) == Advance(Smac0Spec.SetWord(m, address, value.value));
      SetWord(address, value.value);
      programCounter := programCounter + 1;
      return Ok(FullCycle), None;
    }

    /** PRINT: `memory[mem_op]` is written out, then the counter advances. */
    method PerformPrint(ins: Instruction, input: string) returns (result: Result<Signal, Fault>, printed: Option<nat>)
      requires Valid() && programCounter < MEMORY_SIZE
      requires ins.address < MEMORY_SIZE && InstructionDefined(State(), ins)
      requires ins.opcode == 10
      modifies this
      ensures Valid() && StepResult(State(), result, printed) == Smac0Spec.Perform(old(State()), ins, input)
      ensures memory == old(memory) && registers == old(registers) && conditionCodes == old(conditionCodes)
    {
      printed := Some(memory[ins.address]);
      programCounter := programCounter + 1;
      result := Ok(FullCycle);
    }

    /**
     * `execute`: step while the counter is below the last loaded address,
     * and stop at a halt or at the error of a step. Each READ takes the next
     * of `inputs`; `fuel` bounds the number of steps. The run must not reach
     * a word that makes `execute_line` panic.
     */
    method Execute(inputs: seq<string>, fuel: nat) returns (status: Status, printed: seq<nat>)
      requires Valid() && Run(State(), inputs, fuel).status != Aborted
      modifies this, memory, registers, conditionCodes
      ensures Valid() && RunResult(State(), status, printed) == Run(old(State()), inputs, fuel)
      ensures memory == old(memory) && registers == old(registers) && conditionCodes == old(conditionCodes)
    {
      ghost var goal := Run(State(), inputs, fuel);
      ghost var pending := goal;
      var rest, left := inputs, fuel;
      printed := [];
      while programCounter < lastLogicalAddr
        invariant Valid()
        invariant memory == old(memory) && registers == old(registers) && conditionCodes == old(conditionCodes)
        invariant pending == Run(State(), rest, left) && pending.status != Aborted
        invariant goal == pending.(printed := printed + pending.printed)
        decreases left
      {
        if left == 0 {
          assert printed + [] == printed;
          return OutOfFuel, printed;
        }
        ghost var m := State();
        RunProceeds(m, rest, left);
        var consumes := ReadsInput(State());
        var result, out := ExecuteLine(NextLine(rest));
        ghost var step := StepResult(State(), result, out);
        if result.Err? {
          assert printed + [] == printed;
          return Faulted(result.error), printed;
        }
        if result.value == Break {
          assert printed + [] == printed;
          return Finished, printed;
        }
        ghost var rest0, left0 := rest, left;
        rest := if consumes && rest != [] then rest[1..] else rest;
        left := left - 1;
        RunContinues(m, rest0, left0, step, printed, goal, State(), rest, left);
        pending := Run(State(), rest, left);
        AppendAssociates(printed, Printed(out), pending.printed);
        printed := printed + Printed(out);
      }
      assert printed + [] == printed;
      status := Finished;
    }

    /** A run with steps left below the last address that does not abort takes the step at the counter. */
    static lemma RunProceeds(m: Machine, inputs: seq<string>, fuel: nat)
      requires Smac0Spec.Valid(m) && m.programCounter < m.lastLogicalAddr && fuel > 0
      requires Run(m, inputs, fuel).status != Aborted
      ensures Executable(m) && Run(m, inputs, fuel) == Proceed(m, inputs, fuel, Step(m, NextLine(inputs)))
    {
    }

    /**
     * After a step that neither halts nor fails, the run goes on from the
     * next machine `next`, with the input `rest` left and one step fewer.
     */
    static lemma RunContinues(m: Machine, inputs: seq<string>, fuel: nat, step: StepResult, printed: seq<nat>, goal: RunResult,
                              next: Machine, rest: seq<string>, left: nat)
      requires Smac0Spec.Valid(m) && m.programCounter < MEMORY_SIZE && Smac0Spec.Valid(step.machine) && fuel > 0
      requires step.result.Ok? && step.result.value != Break
      requires var r := Proceed(m, inputs, fuel, step); goal == r.(printed := printed + r.printed) && r.status != Aborted
      requires next == step.machine && rest == Remaining(m, inputs) && left == fuel - 1
      ensures var tail := Run(next, rest, left);
        goal == tail.(printed := printed + (Printed(step.printed) + tail.printed)) && tail.status != Aborted
    {
      var tail := Run(step.machine, Remaining(m, inputs), fuel - 1);
      assert Proceed(m, inputs, fuel, step) == tail.(printed := Printed(step.printed) + tail.printed);
      assert tail == Run(next, rest, left);
    }

    static lemma AppendAssociates(a: seq<nat>, b: seq<nat>, c: seq<nat>)
      ensures a + (b + c) == a + b + c
    {
    }

    /** `registers[reg] = v`. */
    method SetRegister(reg: nat, v: nat)
      requires Valid() && reg < REGISTER_COUNT && v <= USIZE_MAX
      modifies registers
      ensures Valid() && State() == Smac0Spec.SetRegister(old(State()), reg, v)
    {
      registers[reg] := v;
      assert registers[..] == old(registers[..])[reg := v];
    }

    /** `memory[addr] = v`. */
    method SetWord(addr: nat, v: nat)
      requires Valid() && addr < MEMORY_SIZE && v <= USIZE_MAX
      modifies memory
      ensures Valid() && State() == Smac0Spec.SetWord(old(State()), addr, v)
    {
      memory[addr] := v;
      assert memory[..] == old(memory[..])[addr := v];
    }

    /** The six assignments of COMP, comparing `x` with `y`. */
    method SetCodes(x: nat, y: nat)
      requires Valid()
      modifies conditionCodes
      ensures Valid() && State() == old(State()).(conditionCodes := Compare(x, y))
    {
      conditionCodes[0] := x < y;
      conditionCodes[1] := x <= y;
      conditionCodes[2] := x == y;
      conditionCodes[3] := x > y;
      conditionCodes[4] := x >= y;
      conditionCodes[5] := true;
      assert conditionCodes[..] == Compare(x, y);
    }
  }
}

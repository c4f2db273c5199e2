/**
 * The `Assembler` object of pass 1: its tables are fields that the methods
 * extend and update in place, as the Rust struct's `Vec`s and counter are.
 * Every method is proved to leave the fields exactly as the corresponding
 * function of module AssemblerSpec says.
 */
module Assembler {
  import opened Wrappers
  import opened Strings
  import opened AssemblerSpec

  class Assembler {
    var symbolTable: seq<Symbol>
    var intermediateCodeTable: seq<IntermediateCode>
    var errorTable: seq<Error>
    var locationCounter: nat

    /** The fields, as one value. */
    function State(): AsmState
      reads this
    {
      AsmState(symbolTable, intermediateCodeTable, errorTable, locationCounter)
    }

    /** `Assembler::new`: empty tables and a location counter of 0. */
    constructor ()
      ensures State() == INITIAL
    {
      symbolTable := [];
      intermediateCodeTable := [];
      errorTable := [];
      locationCounter := 0;
    }

    /** `pass1`: processes the lines in order, then sweeps for undefined symbols. */
    method Pass1(sourceLines: seq<string>)
      requires AllDirectivesParse(sourceLines)
      modifies this
      ensures State() == AssemblerSpec.Pass1(old(State()), sourceLines)
    {
      var lineNumber := 0;
      while lineNumber < |sourceLines|
        invariant lineNumber <= |sourceLines|
        invariant AllDirectivesParse(sourceLines[..lineNumber])
        invariant State() == ProcessLines(old(State()), sourceLines[..lineNumber])
      {
        ProcessLinesStep(old(State()), sourceLines, lineNumber);
        ProcessSourceLine(lineNumber, sourceLines[lineNumber]);
        lineNumber := lineNumber + 1;
      }
      assert sourceLines[..|sourceLines|] == sourceLines;
      CheckUndefinedSymbols();
    }

    /**
     * The body of `pass1`'s loop: split the line, bind its label, then
     * START/END, or dispatch on the mnemonic, or report it unknown.
     */
    method ProcessSourceLine(lineNumber: nat, line: string)
      requires DirectivesParse(line)
      modifies this
      ensures State() == ProcessLine(old(State()), lineNumber, line)
    {
      var labelName, mnemonic, ops := SplitLine(line);
      if labelName.Some? {
        var _ := AddSymbolAsLabel(labelName.value);
      }
      var handled := HandleStartAndEnd(mnemonic, ops);
      if !handled {
        var opcode := Lookup(OPCODE_TABLE, mnemonic);
        if opcode.Some? {
          DirectiveCodes(mnemonic);
          ProcessOpcode(opcode.value, ops, lineNumber);
        } else {
          errorTable := errorTable + [Error(lineNumber, UnknownMnemonic)];
        }
      }
    }

    /**
     * The tokens of a line, read off `split_whitespace` with a cursor: the
     * label (a first token ending in a colon, colon removed), the mnemonic
     * (empty when missing) and the tokens still unread.
     */
    static method SplitLine(line: string) returns (labelName: Option<string>, mnemonic: string, ops: seq<string>)
      ensures LineParts(labelName, mnemonic, ops) == LinePartsOf(line)
    {
      var tokens := SplitWhitespace(line);
      var cursor := 0;
      labelName, mnemonic := None, "";
      if cursor < |tokens| {
        var token := tokens[cursor];
        cursor := cursor + 1;
        if EndsWith(token, ":") {
          labelName := Some(token[..|token| - 1]);
          if cursor < |tokens| {
            mnemonic := tokens[cursor];
            cursor := cursor + 1;
          }
        } else {
          mnemonic := token;
        }
      }
      ops := tokens[cursor..];
    }

    /** `handle_start_and_end`: START sets the location counter; START and END end the line. */
    method HandleStartAndEnd(mnemonic: string, ops: seq<string>) returns (handled: bool)
      requires mnemonic == "START" ==> NumericOperand(ops)
      modifies this
      ensures (State(), handled) == AssemblerSpec.HandleStartAndEnd(old(State()), mnemonic, ops)
    {
      if mnemonic == "START" {
        if |ops| > 0 {
          locationCounter := ParseUsize(ops[0]).value;
        }
        handled := true;
      } else if mnemonic == "END" {
        handled := true;
      } else {
        handled := false;
      }
    }

    /** `process_opcode`. */
    method ProcessOpcode(opcodeCode: nat, ops: seq<string>, lineNumber: nat)
      requires opcodeCode <= 12
      requires opcodeCode == 11 || opcodeCode == 12 ==> NumericOperand(ops)
      modifies this
      ensures State() == AssemblerSpec.ProcessOpcode(old(State()), opcodeCode, ops, lineNumber)
    {
      match opcodeCode
      case 0 =>
        GenerateIntermediateCode(0, None, ConstantKind, 0);
      case 1 | 2 | 3 | 8 | 4 | 5 | 6 =>
        var reg, kind, value := ProcessOperands(ops);
        GenerateIntermediateCode(opcodeCode, reg, kind, value);
      case 9 | 10 =>
        if |ops| > 0 {
          var value := AddSymbol(ops[0]);
          GenerateIntermediateCode(opcodeCode, None, SymbolKind, value);
        }
      case 7 =>
        if |ops| > 0 {
          var regCode := Lookup(CONDITION_TABLE, ops[0]);
          if |ops| > 1 {
            var value := AddSymbol(ops[1]);
            GenerateIntermediateCode(7, regCode, SymbolKind, value);
          } else {
            errorTable := errorTable + [Error(lineNumber, MissingLabel)];
          }
        } else {
          errorTable := errorTable + [Error(lineNumber, MissingConditionCode)];
        }
      case 11 =>
        ProcessDs(ops);
      case _ =>
        ProcessDc(ops, lineNumber);
    }

    /** `process_ds`. */
    method ProcessDs(ops: seq<string>)
      requires NumericOperand(ops)
      modifies this
      ensures State() == AssemblerSpec.ProcessDs(old(State()), ops)
    {
      if |ops| > 0 {
        var size := ParseUsize(ops[0]).value;
        locationCounter := locationCounter + size;
      }
    }

    /** `process_dc`. */
    method ProcessDc(ops: seq<string>, lineNumber: nat)
      requires NumericOperand(ops)
      modifies this
      ensures State() == AssemblerSpec.ProcessDc(old(State()), ops, lineNumber)
    {
      if |ops| > 0 {
        var value := ParseUsize(ops[0]).value;
        intermediateCodeTable := intermediateCodeTable
          + [IntermediateCode(locationCounter, 12, None, ConstantKind, value)];
        locationCounter := locationCounter + 1;
      } else {
        errorTable := errorTable + [Error(lineNumber, InvalidOperand)];
      }
    }

    /** The index of the first symbol called `name`, or `|symbolTable|` when there is none. */
    method SearchSymbol(name: string) returns (i: nat)
      ensures i <= |symbolTable|
      ensures i < |symbolTable| ==> FindSymbol(symbolTable, name) == Some(i)
      ensures i == |symbolTable| ==> FindSymbol(symbolTable, name) == None
    {
      i := 0;
      while i < |symbolTable| && symbolTable[i].name != name
        invariant i <= |symbolTable|
        invariant forall j :: 0 <= j < i ==> symbolTable[j].name != name
      {
        i := i + 1;
      }
    }

    /** `add_symbol`. */
    method AddSymbol(name: string) returns (value: nat)
      modifies this
      ensures (State(), value) == AssemblerSpec.AddSymbol(old(State()), name)
    {
      var i := SearchSymbol(name);
      if i < |symbolTable| {
        symbolTable := symbolTable[i := symbolTable[i].(used := true)];
        value := symbolTable[i].address;
      } else {
        symbolTable := symbolTable + [Symbol(name, 0, false, true)];
        value := |symbolTable| - 1;
      }
    }

    /** `add_symbol_as_label`. */
    method AddSymbolAsLabel(name: string) returns (address: nat)
      modifies this
      ensures (State(), address) == AssemblerSpec.AddSymbolAsLabel(old(State()), name)
    {
      var i := SearchSymbol(name);
      if i < |symbolTable| {
        symbolTable := symbolTable[i := symbolTable[i].(defined := true, address := locationCounter)];
        address := symbolTable[i].address;
      } else {
        address := locationCounter;
        symbolTable := symbolTable + [Symbol(name, address, true, false)];
      }
    }

    /** `process_operands`. */
    method ProcessOperands(ops: seq<string>) returns (regCode: Option<nat>, kind: ValueKind, value: nat)
      modifies this
      ensures (State(), Operand(regCode, kind, value)) == AssemblerSpec.ProcessOperands(old(State()), ops)
    {
      regCode, kind, value := None, SymbolKind, 0;
      if |ops| > 0 {
        var register := Lookup(REGISTER_TABLE, ops[0]);
        if register.Some? {
          regCode := register;
        } else {
          errorTable := errorTable + [Error(locationCounter, InvalidValue)];
          return;
        }
      }
      if |ops| > 1 {
        var constant := ParseUsize(ops[1]);
        if constant.Some? {
          kind := ConstantKind;
          value := constant.value;
        } else {
          value := AddSymbol(ops[1]);
        }
      }
    }

    /** `generate_intermediate_code`. */
    method GenerateIntermediateCode(opcode: nat, reg: Option<nat>, kind: ValueKind, value: nat)
      modifies this
      ensures intermediateCodeTable == old(intermediateCodeTable)
        + [IntermediateCode(old(locationCounter), opcode, reg, kind, value)]
      ensures locationCounter == old(locationCounter) + 1
      ensures symbolTable == old(symbolTable) && errorTable == old(errorTable)
    {
      intermediateCodeTable := intermediateCodeTable
        + [IntermediateCode(locationCounter, opcode, reg, kind, value)];
      locationCounter := locationCounter + 1;
    }

    /** `check_undefined_symbols`: one UndefinedSymbol error at line 0 per used, undefined symbol. */
    method CheckUndefinedSymbols()
      modifies this
      ensures State() == AssemblerSpec.CheckUndefinedSymbols(old(State()))
    {
      var k := 0;
      while k < |symbolTable|
        invariant k <= |symbolTable|
        invariant symbolTable == old(symbolTable)
        invariant intermediateCodeTable == old(intermediateCodeTable)
        invariant locationCounter == old(locationCounter)
        invariant errorTable == old(errorTable) + UndefinedErrors(symbolTable[..k])
      {
        var symbol := symbolTable[k];
        if symbol.used && !symbol.defined {
          errorTable := errorTable + [Error(0, UndefinedSymbol(symbol.name))];
        }
        assert symbolTable[..k + 1][..k] == symbolTable[..k];
        k := k + 1;
      }
      assert symbolTable[..|symbolTable|] == symbolTable;
    }
  }
}

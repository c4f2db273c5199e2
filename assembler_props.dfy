/**
 * Properties of pass 1 (module AssemblerSpec): the two cases of a symbol
 * reference, label binding, the effect of each kind of line, the location
 * counter, the end-of-pass sweep, and the canonical example program.
 */
module AssemblerProps {
  import opened Wrappers
  import opened Strings
  import opened AssemblerSpec

  // ---------------------------------------------------------------------
  // The symbol table
  // ---------------------------------------------------------------------

  /** In a table with unique names, the symbol at `i` is the one `find` returns. */
  lemma FindUnique(symbols: seq<Symbol>, name: string, i: nat)
    requires UniqueNames(symbols) && i < |symbols| && symbols[i].name == name
    ensures FindSymbol(symbols, name) == Some(i)
  {
    assert HasSymbol(symbols, name);
  }

  /**
   * Referencing a known symbol marks it used and yields its current address
   * (a real address only if it is already defined); nothing else changes.
   */
  lemma AddSymbolExisting(st: AsmState, name: string, i: nat)
    requires UniqueNames(st.symbols) && i < |st.symbols| && st.symbols[i].name == name
    ensures AddSymbol(st, name).1 == st.symbols[i].address
    ensures AddSymbol(st, name).0 == st.(symbols := st.symbols[i := st.symbols[i].(used := true)])
  {
    FindUnique(st.symbols, name, i);
  }

  /**
   * The first reference to a name appends it undefined, used, at address 0,
   * and yields its table index: the length of the table before the call.
   */
  lemma AddSymbolFresh(st: AsmState, name: string)
    requires !HasSymbol(st.symbols, name)
    ensures AddSymbol(st, name).1 == |st.symbols|
    ensures AddSymbol(st, name).0 == st.(symbols := st.symbols + [Symbol(name, 0, false, true)])
  {
  }

  /** `add_symbol` keeps names unique, and grows the table by one exactly when the name was absent. */
  lemma AddSymbolKeepsUnique(st: AsmState, name: string)
    requires UniqueNames(st.symbols)
    ensures UniqueNames(AddSymbol(st, name).0.symbols)
    ensures HasSymbol(AddSymbol(st, name).0.symbols, name)
    ensures |AddSymbol(st, name).0.symbols| == |st.symbols| + (if HasSymbol(st.symbols, name) then 0 else 1)
  {
    var r := AddSymbol(st, name).0.symbols;
    if HasSymbol(st.symbols, name) {
      var i := FindSymbol(st.symbols, name).value;
      assert r[i].name == name;
    } else {
      assert r[|st.symbols|].name == name;
    }
  }

  /**
   * Binding a known name as a label marks it defined at the location
   * counter and keeps its `used` flag; no other entry changes.
   */
  lemma BindLabelExisting(st: AsmState, name: string, i: nat)
    requires UniqueNames(st.symbols) && i < |st.symbols| && st.symbols[i].name == name
    ensures AddSymbolAsLabel(st, name).0
      == st.(symbols := st.symbols[i := Symbol(name, st.lc, true, st.symbols[i].used)])
  {
    FindUnique(st.symbols, name, i);
  }

  /** Binding a new name as a label appends it defined at the location counter, not used. */
  lemma BindLabelFresh(st: AsmState, name: string)
    requires !HasSymbol(st.symbols, name)
    ensures AddSymbolAsLabel(st, name).0 == st.(symbols := st.symbols + [Symbol(name, st.lc, true, false)])
  {
  }

  /** `add_symbol_as_label` keeps names unique, and grows the table by one exactly when the name was absent. */
  lemma BindLabelKeepsUnique(st: AsmState, name: string)
    requires UniqueNames(st.symbols)
    ensures UniqueNames(AddSymbolAsLabel(st, name).0.symbols)
    ensures |AddSymbolAsLabel(st, name).0.symbols| == |st.symbols| + (if HasSymbol(st.symbols, name) then 0 else 1)
  {
  }

  /**
   * `later` keeps every entry of `earlier` with its name, address and
   * `defined` flag: at most `used` flags changed and entries were appended.
   */
  predicate KeepsBindings(earlier: seq<Symbol>, later: seq<Symbol>) {
    |earlier| <= |later| &&
    forall i :: 0 <= i < |earlier| ==>
      later[i].name == earlier[i].name && later[i].address == earlier[i].address
      && later[i].defined == earlier[i].defined
  }

  /** The names of the earlier table survive, in their places. */
  predicate KeepsNames(earlier: seq<Symbol>, later: seq<Symbol>) {
    |earlier| <= |later| && forall i :: 0 <= i < |earlier| ==> later[i].name == earlier[i].name
  }

  lemma AddSymbolKeepsBindings(st: AsmState, name: string)
    ensures KeepsBindings(st.symbols, AddSymbol(st, name).0.symbols)
  {
  }

  /** Operand processing never rebinds a symbol: it only marks or appends. */
  lemma ProcessOpcodeKeepsBindings(st: AsmState, code: nat, ops: seq<string>, lineNumber: nat)
    requires code <= 12
    requires code == 11 || code == 12 ==> NumericOperand(ops)
    ensures KeepsBindings(st.symbols, ProcessOpcode(st, code, ops, lineNumber).symbols)
  {
    if |ops| > 0 { AddSymbolKeepsBindings(st, ops[0]); }
    if |ops| > 1 { AddSymbolKeepsBindings(st, ops[1]); }
  }

  lemma ProcessOperandsKeepsUnique(st: AsmState, ops: seq<string>)
    requires UniqueNames(st.symbols)
    ensures UniqueNames(ProcessOperands(st, ops).0.symbols)
  {
    if |ops| > 1 { AddSymbolKeepsUnique(st, ops[1]); }
  }

  lemma ProcessOpcodeKeepsUnique(st: AsmState, code: nat, ops: seq<string>, lineNumber: nat)
    requires code <= 12
    requires code == 11 || code == 12 ==> NumericOperand(ops)
    requires UniqueNames(st.symbols)
    ensures UniqueNames(ProcessOpcode(st, code, ops, lineNumber).symbols)
  {
    ProcessOperandsKeepsUnique(st, ops);
    if |ops| > 0 { AddSymbolKeepsUnique(st, ops[0]); }
    if |ops| > 1 { AddSymbolKeepsUnique(st, ops[1]); }
  }

  // ---------------------------------------------------------------------
  // One line
  // ---------------------------------------------------------------------

  // ---------------------------------------------------------------------
  // One mnemonic
  // ---------------------------------------------------------------------

  /** `process_ds`: the counter moves on by the operand, or stays; nothing is emitted. */
  lemma OpcodeDs(st: AsmState, ops: seq<string>, n: nat)
    requires NumericOperand(ops)
    ensures var r := ProcessOpcode(st, 11, ops, n);
      r.symbols == st.symbols && r.code == st.code && r.errors == st.errors
      && r.lc == st.lc + (if |ops| > 0 then ParseUsize(ops[0]).value else 0)
  {
  }

  /** `process_dc`: one constant record at the counter, or InvalidOperand at the line. */
  lemma OpcodeDc(st: AsmState, ops: seq<string>, n: nat)
    requires NumericOperand(ops)
    ensures var r := ProcessOpcode(st, 12, ops, n);
      r.symbols == st.symbols &&
      if |ops| > 0 then
        r.code == st.code + [IntermediateCode(st.lc, 12, None, ConstantKind, ParseUsize(ops[0]).value)]
        && r.errors == st.errors && r.lc == st.lc + 1
      else
        r.code == st.code && r.errors == st.errors + [Error(n, InvalidOperand)] && r.lc == st.lc
  {
  }

  /** READ and PRINT without an operand leave the state as it was. */
  lemma OpcodeReadPrintBare(st: AsmState, code: nat, n: nat)
    requires code == 9 || code == 10
    ensures ProcessOpcode(st, code, [], n) == st
  {
  }

  /** BC with an unknown condition emits its record with no register and reports nothing. */
  lemma OpcodeBranchUnknown(st: AsmState, ops: seq<string>, n: nat)
    requires |ops| > 1 && Lookup(CONDITION_TABLE, ops[0]).None?
    ensures var r := ProcessOpcode(st, 7, ops, n);
      |r.code| == |st.code| + 1 && r.code[..|st.code|] == st.code
      && r.code[|st.code|].address == st.lc && r.code[|st.code|].opcode == 7
      && r.code[|st.code|].reg.None? && r.errors == st.errors && r.lc == st.lc + 1
  {
    var r := ProcessOpcode(st, 7, ops, n);
    assert r.code[..|st.code|] == st.code;
  }

  /** An unknown register: InvalidValue stamped with the counter, and a record with the empty operand. */
  lemma OpcodeInvalidRegister(st: AsmState, code: nat, ops: seq<string>, n: nat)
    requires code in {1, 2, 3, 4, 5, 6, 8}
    requires |ops| > 0 && Lookup(REGISTER_TABLE, ops[0]).None?
    ensures var r := ProcessOpcode(st, code, ops, n);
      r.errors == st.errors + [Error(st.lc, InvalidValue)]
      && r.code == st.code + [IntermediateCode(st.lc, code, None, SymbolKind, 0)]
      && r.lc == st.lc + 1 && r.symbols == st.symbols
  {
  }

  /** Words a DS directive reserves. */
  function DsWords(code: nat, ops: seq<string>): nat
    requires code == 11 ==> NumericOperand(ops)
  {
    if code == 11 && |ops| > 0 then ParseUsize(ops[0]).value else 0
  }

  /**
   * `later` extends `earlier`: names stay unique and keep their places;
   * records and errors are only appended; no appended error is
   * UndefinedSymbol.
   */
  predicate Grows(earlier: AsmState, later: AsmState) {
    && UniqueNames(later.symbols) && KeepsNames(earlier.symbols, later.symbols)
    && |earlier.code| <= |later.code| && later.code[..|earlier.code|] == earlier.code
    && |earlier.errors| <= |later.errors| && later.errors[..|earlier.errors|] == earlier.errors
    && forall i :: |earlier.errors| <= i < |later.errors| ==> !later.errors[i].errorType.UndefinedSymbol?
  }

  lemma GrowsTrans(a: AsmState, b: AsmState, c: AsmState)
    requires Grows(a, b) && Grows(b, c)
    ensures Grows(a, c)
  {
    assert c.code[..|a.code|] == b.code[..|a.code|];
    assert c.errors[..|a.errors|] == b.errors[..|a.errors|];
    forall i | |a.errors| <= i < |c.errors| ensures !c.errors[i].errorType.UndefinedSymbol? {
      if i < |b.errors| { assert c.errors[i] == b.errors[i]; }
    }
  }

  /**
   * Any mnemonic only appends: at most one record, stamped with the counter,
   * and at most one error, never UndefinedSymbol; symbols keep their names,
   * addresses and `defined` flags and stay unique; the counter moves on by
   * the records emitted plus the words reserved.
   */
  lemma OpcodeAppends(st: AsmState, code: nat, ops: seq<string>, n: nat)
    requires code <= 12 && (code == 11 || code == 12 ==> NumericOperand(ops))
    requires UniqueNames(st.symbols)
    ensures var r := ProcessOpcode(st, code, ops, n);
      && Grows(st, r) && KeepsBindings(st.symbols, r.symbols)
      && |r.code| <= |st.code| + 1 && |r.errors| <= |st.errors| + 1
      && (|r.code| > |st.code| ==> r.code[|st.code|].address == st.lc)
      && r.lc == st.lc + (|r.code| - |st.code|) + DsWords(code, ops)
  {
    ProcessOpcodeKeepsUnique(st, code, ops, n);
    ProcessOpcodeKeepsBindings(st, code, ops, n);
    var r := ProcessOpcode(st, code, ops, n);
    assert r.code[..|st.code|] == st.code;
    assert r.errors[..|st.errors|] == st.errors;
  }

  // ---------------------------------------------------------------------
  // One line
  // ---------------------------------------------------------------------

  /** A line with a catalog mnemonic is its label binding followed by `process_opcode`. */
  lemma Dispatch(st: AsmState, n: nat, p: LineParts, code: nat)
    requires PartsParse(p) && p.mnemonic != "START" && p.mnemonic != "END"
    requires Lookup(OPCODE_TABLE, p.mnemonic) == Some(code)
    ensures code <= 12 && (code == 11 || code == 12 ==> NumericOperand(p.ops))
    ensures ProcessParts(st, n, p) == ProcessOpcode(BindLabel(st, p), code, p.ops, n)
  {
    DirectiveCodes(p.mnemonic);
  }

  /** Words the line reserves with DS. */
  function Reserved(p: LineParts): nat
    requires PartsParse(p)
  {
    if p.mnemonic == "DS" && |p.ops| > 0 then ParseUsize(p.ops[0]).value else 0
  }

  /** The mnemonic is neither START, END nor an entry of the opcode catalog. */
  predicate Unknown(p: LineParts) {
    p.mnemonic != "START" && p.mnemonic != "END" && Lookup(OPCODE_TABLE, p.mnemonic).None?
  }

  /**
   * A label is bound before the mnemonic acts: whatever the line does, the
   * label names a defined symbol whose address is the location counter at
   * the start of the line (so a label on DS or DC gets the address before
   * the reservation or the constant).
   */
  lemma LabelBoundAtLineStart(st: AsmState, n: nat, p: LineParts)
    requires PartsParse(p) && p.labelName.Some?
    ensures var r := ProcessParts(st, n, p);
      exists i :: 0 <= i < |r.symbols| && r.symbols[i].name == p.labelName.value
        && r.symbols[i].address == st.lc && r.symbols[i].defined
  {
    var name := p.labelName.value;
    var st1 := BindLabel(st, p);
    var i: nat;
    if FindSymbol(st.symbols, name).Some? {
      i := FindSymbol(st.symbols, name).value;
    } else {
      i := |st.symbols|;
    }
    assert st1.symbols[i] == Symbol(name, st.lc, true, st1.symbols[i].used);
    var r := ProcessParts(st, n, p);
    if p.mnemonic != "START" && p.mnemonic != "END" && Lookup(OPCODE_TABLE, p.mnemonic).Some? {
      var code := Lookup(OPCODE_TABLE, p.mnemonic).value;
      Dispatch(st, n, p, code);
      ProcessOpcodeKeepsBindings(st1, code, p.ops, n);
    }
    assert r.symbols[i].name == name;
  }

  /** START sets the counter to its operand, END leaves it; neither emits a record or an error. */
  lemma StartEndLine(st: AsmState, n: nat, p: LineParts)
    requires PartsParse(p) && p.mnemonic in {"START", "END"}
    ensures var r := ProcessParts(st, n, p);
      r.code == st.code && r.errors == st.errors && r.symbols == BindLabel(st, p).symbols
      && r.lc == (if p.mnemonic == "START" && |p.ops| > 0 then ParseUsize(p.ops[0]).value else st.lc)
  {
  }

  /** An unknown mnemonic gives exactly one UnknownMnemonic error at the line's index and no record. */
  lemma UnknownMnemonicLine(st: AsmState, n: nat, p: LineParts)
    requires PartsParse(p) && Unknown(p)
    ensures var r := ProcessParts(st, n, p);
      r.errors == st.errors + [Error(n, UnknownMnemonic)]
      && r.code == st.code && r.lc == st.lc && r.symbols == BindLabel(st, p).symbols
  {
  }

  /** A line holding only a label has the empty mnemonic, which is unknown. */
  lemma LabelOnlyLine(st: AsmState, n: nat, line: string, tok: string)
    requires SplitWhitespace(line) == [tok] && EndsWith(tok, ":")
    ensures DirectivesParse(line) && Unknown(LinePartsOf(line))
    ensures ProcessLine(st, n, line).errors == st.errors + [Error(n, UnknownMnemonic)]
    ensures ProcessLine(st, n, line).code == st.code
  {
    assert LinePartsOf(line).mnemonic == "";
    assert Lookup(OPCODE_TABLE, "") == None;
    UnknownMnemonicLine(st, n, LinePartsOf(line));
  }

  /** `DS n` moves the counter on by n and emits nothing; a bare DS does nothing. */
  lemma DsLine(st: AsmState, n: nat, p: LineParts)
    requires PartsParse(p) && p.mnemonic == "DS"
    ensures var r := ProcessParts(st, n, p);
      r.code == st.code && r.errors == st.errors && r.lc == st.lc + Reserved(p)
  {
    assert Lookup(OPCODE_TABLE, "DS") == Some(11);
    Dispatch(st, n, p, 11);
    OpcodeDs(BindLabel(st, p), p.ops, n);
  }

  /**
   * `DC v` emits one constant record with opcode 12 at the counter and moves
   * it on by 1; a DC without operand reports InvalidOperand and leaves the
   * counter.
   */
  lemma DcLine(st: AsmState, n: nat, p: LineParts)
    requires PartsParse(p) && p.mnemonic == "DC"
    ensures var r := ProcessParts(st, n, p);
      |p.ops| > 0 ==>
        r.code == st.code + [IntermediateCode(st.lc, 12, None, ConstantKind, ParseUsize(p.ops[0]).value)]
        && r.errors == st.errors && r.lc == st.lc + 1
    ensures var r := ProcessParts(st, n, p);
      |p.ops| == 0 ==>
        r.code == st.code && r.errors == st.errors + [Error(n, InvalidOperand)] && r.lc == st.lc
  {
    assert Lookup(OPCODE_TABLE, "DC") == Some(12);
    Dispatch(st, n, p, 12);
    OpcodeDc(BindLabel(st, p), p.ops, n);
  }

  /** READ or PRINT without an operand emits nothing and reports nothing. */
  lemma ReadPrintWithoutOperand(st: AsmState, n: nat, p: LineParts)
    requires (p.mnemonic == "READ" || p.mnemonic == "PRINT") && p.ops == []
    ensures PartsParse(p) && ProcessParts(st, n, p) == BindLabel(st, p)
  {
    assert Lookup(OPCODE_TABLE, "READ") == Some(9);
    assert Lookup(OPCODE_TABLE, "PRINT") == Some(10);
    if p.mnemonic == "READ" {
      Dispatch(st, n, p, 9);
      OpcodeReadPrintBare(BindLabel(st, p), 9, n);
    } else {
      Dispatch(st, n, p, 10);
      OpcodeReadPrintBare(BindLabel(st, p), 10, n);
    }
  }

  /** BC with an unknown condition still emits its record, with no register. */
  lemma BranchUnknownCondition(st: AsmState, n: nat, p: LineParts)
    requires p.mnemonic == "BC" && |p.ops| > 1 && Lookup(CONDITION_TABLE, p.ops[0]).None?
    ensures PartsParse(p)
    ensures var r := ProcessParts(st, n, p);
      |r.code| == |st.code| + 1 && r.code[..|st.code|] == st.code
      && r.code[|st.code|].address == st.lc && r.code[|st.code|].opcode == 7
      && r.code[|st.code|].reg.None? && r.errors == st.errors
  {
    assert Lookup(OPCODE_TABLE, "BC") == Some(7);
    Dispatch(st, n, p, 7);
    OpcodeBranchUnknown(BindLabel(st, p), p.ops, n);
  }

  /** The register-operand mnemonics and their codes. */
  lemma ArithmeticCodes(m: string)
    requires m in {"ADD", "SUB", "MUL", "DIV", "MOVER", "MOVEM", "COMP"}
    ensures Lookup(OPCODE_TABLE, m).Some? && Lookup(OPCODE_TABLE, m).value in {1, 2, 3, 4, 5, 6, 8}
  {
    if m == "ADD" {
      assert Lookup(OPCODE_TABLE, "ADD") == Some(1);
    } else if m == "SUB" {
      assert Lookup(OPCODE_TABLE, "SUB") == Some(2);
    } else if m == "MUL" {
      assert Lookup(OPCODE_TABLE, "MUL") == Some(3);
    } else if m == "MOVER" {
      assert Lookup(OPCODE_TABLE, "MOVER") == Some(4);
    } else if m == "MOVEM" {
      assert Lookup(OPCODE_TABLE, "MOVEM") == Some(5);
    } else if m == "COMP" {
      assert Lookup(OPCODE_TABLE, "COMP") == Some(6);
    } else {
      assert Lookup(OPCODE_TABLE, "DIV") == Some(8);
    }
  }

  /**
   * An unknown register on an arithmetic, move or COMP line is reported as
   * InvalidValue stamped with the location counter, not the line number,
   * and the record is still emitted with the empty operand.
   */
  lemma InvalidRegisterLine(st: AsmState, n: nat, p: LineParts)
    requires p.mnemonic in {"ADD", "SUB", "MUL", "DIV", "MOVER", "MOVEM", "COMP"}
    requires |p.ops| > 0 && Lookup(REGISTER_TABLE, p.ops[0]).None?
    ensures PartsParse(p)
    ensures var r := ProcessParts(st, n, p);
      var code := Lookup(OPCODE_TABLE, p.mnemonic).value;
      r.errors == st.errors + [Error(st.lc, InvalidValue)]
      && r.code == st.code + [IntermediateCode(st.lc, code, None, SymbolKind, 0)]
      && r.lc == st.lc + 1
  {
    ArithmeticCodes(p.mnemonic);
    var code := Lookup(OPCODE_TABLE, p.mnemonic).value;
    Dispatch(st, n, p, code);
    OpcodeInvalidRegister(BindLabel(st, p), code, p.ops, n);
  }

  lemma DsWordsReserved(p: LineParts, code: nat)
    requires PartsParse(p) && Lookup(OPCODE_TABLE, p.mnemonic) == Some(code)
    ensures code == 11 ==> NumericOperand(p.ops)
    ensures DsWords(code, p.ops) == Reserved(p)
  {
    DirectiveCodes(p.mnemonic);
    assert Lookup(OPCODE_TABLE, "DS") == Some(11);
  }

  /**
   * What one line does to the tables: they only grow (`Grows`); at most one
   * record and at most one error are added; a record added is stamped with
   * the counter at the start of the line; and outside START the counter
   * moves on by the records added plus the words reserved.
   */
  predicate LineGrows(st: AsmState, r: AsmState, p: LineParts)
    requires PartsParse(p)
  {
    && Grows(st, r) && |r.code| <= |st.code| + 1 && |r.errors| <= |st.errors| + 1
    && (|r.code| > |st.code| ==> r.code[|st.code|].address == st.lc)
    && (p.mnemonic != "START" ==> r.lc == st.lc + (|r.code| - |st.code|) + Reserved(p))
  }

  /** Every line only appends, as `LineGrows` says. */
  lemma LineAppends(st: AsmState, n: nat, p: LineParts)
    requires PartsParse(p) && UniqueNames(st.symbols)
    ensures LineGrows(st, ProcessParts(st, n, p), p)
  {
    if p.mnemonic != "START" && p.mnemonic != "END" && Lookup(OPCODE_TABLE, p.mnemonic).Some? {
      OpcodeLineAppends(st, n, p, Lookup(OPCODE_TABLE, p.mnemonic).value);
    } else {
      OtherLineAppends(st, n, p);
    }
  }

  /** The label of a line keeps the table growing. */
  lemma BindLabelGrows(st: AsmState, p: LineParts)
    requires UniqueNames(st.symbols)
    ensures Grows(st, BindLabel(st, p))
  {
    var st1 := BindLabel(st, p);
    if p.labelName.Some? {
      BindLabelKeepsUnique(st, p.labelName.value);
    }
    assert st1.code[..|st.code|] == st.code;
    assert st1.errors[..|st.errors|] == st.errors;
  }

  lemma OpcodeLineAppends(st: AsmState, n: nat, p: LineParts, code: nat)
    requires PartsParse(p) && UniqueNames(st.symbols)
    requires p.mnemonic != "START" && p.mnemonic != "END" && Lookup(OPCODE_TABLE, p.mnemonic) == Some(code)
    ensures LineGrows(st, ProcessParts(st, n, p), p)
  {
    var st1 := BindLabel(st, p);
    BindLabelGrows(st, p);
    Dispatch(st, n, p, code);
    OpcodeAppends(st1, code, p.ops, n);
    DsWordsReserved(p, code);
    GrowsTrans(st, st1, ProcessOpcode(st1, code, p.ops, n));
  }

  lemma OtherLineAppends(st: AsmState, n: nat, p: LineParts)
    requires PartsParse(p) && UniqueNames(st.symbols)
    requires !(p.mnemonic != "START" && p.mnemonic != "END" && Lookup(OPCODE_TABLE, p.mnemonic).Some?)
    ensures LineGrows(st, ProcessParts(st, n, p), p)
  {
    var st1 := BindLabel(st, p);
    BindLabelGrows(st, p);
    var r := ProcessParts(st, n, p);
    assert Lookup(OPCODE_TABLE, "DS") == Some(11);
    if p.mnemonic == "START" || p.mnemonic == "END" {
      StartEndLine(st, n, p);
    } else {
      UnknownMnemonicLine(st, n, p);
    }
    assert Grows(st1, r) by {
      assert r.code[..|st1.code|] == st1.code;
      assert r.errors[..|st1.errors|] == st1.errors;
    }
    GrowsTrans(st, st1, r);
  }

  // ---------------------------------------------------------------------
  // The lines of a pass
  // ---------------------------------------------------------------------

  /** Words reserved by all DS lines. */
  function TotalReserved(lines: seq<string>): nat
    requires AllDirectivesParse(lines)
    decreases |lines|
  {
    if lines == [] then 0
    else
      assert AllDirectivesParse(lines[..|lines| - 1]);
      TotalReserved(lines[..|lines| - 1]) + Reserved(LinePartsOf(lines[|lines| - 1]))
  }

  predicate NoStart(lines: seq<string>) {
    forall i :: 0 <= i < |lines| ==> LinePartsOf(lines[i]).mnemonic != "START"
  }

  /** Records are stamped with strictly increasing addresses, all below the counter. */
  predicate AddressesAscending(st: AsmState) {
    (forall i, j :: 0 <= i < j < |st.code| ==> st.code[i].address < st.code[j].address)
    && forall i :: 0 <= i < |st.code| ==> st.code[i].address < st.lc
  }

  /**
   * Appending at most one record stamped with the old counter, while the
   * counter moves on by at least the records added, keeps the addresses
   * ascending.
   */
  lemma AscendingStep(a: AsmState, b: AsmState)
    requires AddressesAscending(a)
    requires |a.code| <= |b.code| <= |a.code| + 1 && b.code[..|a.code|] == a.code
    requires |b.code| > |a.code| ==> b.code[|a.code|].address == a.lc
    requires b.lc >= a.lc + (|b.code| - |a.code|)
    ensures AddressesAscending(b)
  {
    forall i | 0 <= i < |b.code| ensures b.code[i].address < b.lc {
      if i < |a.code| { assert b.code[i] == a.code[i]; }
    }
    forall i, j | 0 <= i < j < |b.code| ensures b.code[i].address < b.code[j].address {
      assert b.code[i] == a.code[i];
      if j < |a.code| { assert b.code[j] == a.code[j]; }
    }
  }

  /**
   * Over a whole pass the state only grows (`Grows`); and without START the
   * counter ends at its start plus the records emitted plus the words
   * reserved, with the records' addresses ascending.
   */
  lemma {:induction false} LinesAppend(st: AsmState, lines: seq<string>)
    requires AllDirectivesParse(lines) && UniqueNames(st.symbols)
    ensures var r := ProcessLines(st, lines);
      && Grows(st, r)
      && (NoStart(lines) ==> r.lc == st.lc + (|r.code| - |st.code|) + TotalReserved(lines))
      && (NoStart(lines) && AddressesAscending(st) ==> AddressesAscending(r))
    decreases |lines|
  {
    if lines == [] {
      var r := ProcessLines(st, lines);
      assert r.code[..|st.code|] == st.code && r.errors[..|st.errors|] == st.errors;
    } else {
      var k := |lines| - 1;
      ProcessLinesStep(st, lines, k);
      assert lines[..k + 1] == lines;
      var mid := ProcessLines(st, lines[..k]);
      LinesAppend(st, lines[..k]);
      LineAppends(mid, k, LinePartsOf(lines[k]));
      var r := ProcessLines(st, lines);
      GrowsTrans(st, mid, r);
      if NoStart(lines) {
        assert NoStart(lines[..k]) by {
          forall i | 0 <= i < k ensures LinePartsOf(lines[..k][i]).mnemonic != "START" {
            assert lines[..k][i] == lines[i];
          }
        }
        if AddressesAscending(st) {
          AscendingStep(mid, r);
        }
      }
    }
  }

  // ---------------------------------------------------------------------
  // The end-of-pass sweep
  // ---------------------------------------------------------------------

  /** The sweep reports table segments in table order. */
  lemma {:induction false} UndefinedErrorsConcat(a: seq<Symbol>, b: seq<Symbol>)
    ensures UndefinedErrors(a + b) == UndefinedErrors(a) + UndefinedErrors(b)
    decreases |b|
  {
    if b != [] {
      var c := b[..|b| - 1];
      assert (a + b)[..|a + b| - 1] == a + c;
      UndefinedErrorsConcat(a, c);
    } else {
      assert a + b == a;
    }
  }

  /**
   * The sweep reports exactly the used, undefined symbols, one error each
   * at line 0, and nothing else.
   */
  lemma {:induction false} UndefinedErrorsExactly(symbols: seq<Symbol>, e: Error)
    ensures e in UndefinedErrors(symbols) <==>
      exists i :: 0 <= i < |symbols| && symbols[i].used && !symbols[i].defined
        && e == Error(0, UndefinedSymbol(symbols[i].name))
    decreases |symbols|
  {
    if symbols != [] {
      var k := |symbols| - 1;
      var front := symbols[..k];
      UndefinedErrorsExactly(front, e);
      if e in UndefinedErrors(front) {
        var i :| 0 <= i < |front| && front[i].used && !front[i].defined
          && e == Error(0, UndefinedSymbol(front[i].name));
        assert symbols[i] == front[i];
      }
      if exists i :: 0 <= i < |symbols| && symbols[i].used && !symbols[i].defined
           && e == Error(0, UndefinedSymbol(symbols[i].name))
      {
        var i :| 0 <= i < |symbols| && symbols[i].used && !symbols[i].defined
          && e == Error(0, UndefinedSymbol(symbols[i].name));
        if i < k { assert front[i] == symbols[i]; }
      }
    }
  }

  /** One error per used, undefined symbol. */
  function CountUndefined(symbols: seq<Symbol>): nat {
    |set i | 0 <= i < |symbols| && symbols[i].used && !symbols[i].defined|
  }

  lemma {:induction false} UndefinedErrorsCount(symbols: seq<Symbol>)
    ensures |UndefinedErrors(symbols)| == CountUndefined(symbols)
    decreases |symbols|
  {
    if symbols != [] {
      var k := |symbols| - 1;
      var front := symbols[..k];
      UndefinedErrorsCount(front);
      var a := set i | 0 <= i < |front| && front[i].used && !front[i].defined;
      var b := set i | 0 <= i < |symbols| && symbols[i].used && !symbols[i].defined;
      if symbols[k].used && !symbols[k].defined {
        assert b == a + {k};
      } else {
        assert b == a;
      }
    }
  }

  /**
   * After a whole pass started without UndefinedSymbol errors, those errors
   * name exactly the symbols that were used but never defined.
   */
  lemma Pass1ReportsUndefined(st: AsmState, lines: seq<string>, name: string)
    requires AllDirectivesParse(lines) && UniqueNames(st.symbols)
    requires forall i :: 0 <= i < |st.errors| ==> !st.errors[i].errorType.UndefinedSymbol?
    ensures var r := Pass1(st, lines);
      (exists i :: 0 <= i < |r.errors| && r.errors[i].errorType == UndefinedSymbol(name))
      <==> exists j :: 0 <= j < |r.symbols| && r.symbols[j].name == name
             && r.symbols[j].used && !r.symbols[j].defined
  {
    var mid := ProcessLines(st, lines);
    LinesAppend(st, lines);
    var r := Pass1(st, lines);
    assert forall i :: 0 <= i < |mid.errors| ==> !mid.errors[i].errorType.UndefinedSymbol? by {
      forall i | 0 <= i < |mid.errors| ensures !mid.errors[i].errorType.UndefinedSymbol? {
        if i < |st.errors| { assert mid.errors[i] == st.errors[i]; }
      }
    }
    var e := Error(0, UndefinedSymbol(name));
    UndefinedErrorsExactly(mid.symbols, e);
    if exists i :: 0 <= i < |r.errors| && r.errors[i].errorType == UndefinedSymbol(name) {
      var i :| 0 <= i < |r.errors| && r.errors[i].errorType == UndefinedSymbol(name);
      var u := UndefinedErrors(mid.symbols);
      assert r.errors[i] == u[i - |mid.errors|];
      UndefinedErrorsExactly(mid.symbols, r.errors[i]);
    }
    if exists j :: 0 <= j < |r.symbols| && r.symbols[j].name == name
         && r.symbols[j].used && !r.symbols[j].defined
    {
      var u := UndefinedErrors(mid.symbols);
      assert e in u;
      var k :| 0 <= k < |u| && u[k] == e;
      assert r.errors[|mid.errors| + k] == e;
    }
  }
}

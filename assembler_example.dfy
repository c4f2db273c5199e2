/**
 * The example program of the assembler's own test, run through pass 1 of
 * the model line by line. The final tables are the ones the test expects:
 * four symbols, eight records, no errors.
 */
module AssemblerExample {
  import opened Wrappers
  import opened Strings
  import opened AssemblerSpec
  import opened AssemblerProps

  /**
   * The test's source, line by line, as `split_whitespace` and the label
   * split see it: START 300 / BEGIN: READ NUM / LOOP: MOVEM AREG NUM /
   * PRINT NUM / MUL AREG NUM / COMP AREG HUNDRED / BC LT LOOP / STOP /
   * NUM: DS 2 / HUNDRED: DC 100 / END.
   */
  const PROGRAM: seq<LineParts> := [
    LineParts(None, "START", ["300"]),
    LineParts(Some("BEGIN"), "READ", ["NUM"]),
    LineParts(Some("LOOP"), "MOVEM", ["AREG", "NUM"]),
    LineParts(None, "PRINT", ["NUM"]),
    LineParts(None, "MUL", ["AREG", "NUM"]),
    LineParts(None, "COMP", ["AREG", "HUNDRED"]),
    LineParts(None, "BC", ["LT", "LOOP"]),
    LineParts(None, "STOP", []),
    LineParts(Some("NUM"), "DS", ["2"]),
    LineParts(Some("HUNDRED"), "DC", ["100"]),
    LineParts(None, "END", [])
  ]

  /** The symbol table the test expects. */
  const EXPECTED_SYMBOLS: seq<Symbol> := [
    Symbol("BEGIN", 300, true, false),
    Symbol("NUM", 307, true, true),
    Symbol("LOOP", 301, true, true),
    Symbol("HUNDRED", 309, true, true)
  ]

  /** The intermediate code the test expects. */
  const EXPECTED_CODE: seq<IntermediateCode> := [
    IntermediateCode(300, 9, None, SymbolKind, 1),
    IntermediateCode(301, 5, Some(0), SymbolKind, 0),
    IntermediateCode(302, 10, None, SymbolKind, 0),
    IntermediateCode(303, 3, Some(0), SymbolKind, 0),
    IntermediateCode(304, 6, Some(0), SymbolKind, 3),
    IntermediateCode(305, 7, Some(0), SymbolKind, 301),
    IntermediateCode(306, 0, None, ConstantKind, 0),
    IntermediateCode(309, 12, None, ConstantKind, 100)
  ]

  /** A numeral of the program parses to the number it spells. */
  lemma Numeral(n: nat, s: string)
    requires n <= USIZE_MAX && NatToDecimal(n) == s
    ensures ParseUsize(s) == Some(n)
  {
    ParseDecimal(n);
  }

  // The state after each line. Symbols and records only ever grow, so each
  // state is the previous one plus what its line adds.

  const S1: AsmState := AsmState([], [], [], 300)
  const S2: AsmState := AsmState(
    [Symbol("BEGIN", 300, true, false), Symbol("NUM", 0, false, true)],
    EXPECTED_CODE[..1], [], 301)
  const S3: AsmState := AsmState(
    [Symbol("BEGIN", 300, true, false), Symbol("NUM", 0, false, true), Symbol("LOOP", 301, true, false)],
    EXPECTED_CODE[..2], [], 302)
  const S4: AsmState := S3.(code := EXPECTED_CODE[..3], lc := 303)
  const S5: AsmState := S3.(code := EXPECTED_CODE[..4], lc := 304)
  const S6: AsmState := AsmState(S3.symbols + [Symbol("HUNDRED", 0, false, true)], EXPECTED_CODE[..5], [], 305)
  const S7: AsmState := AsmState(
    [Symbol("BEGIN", 300, true, false), Symbol("NUM", 0, false, true),
     Symbol("LOOP", 301, true, true), Symbol("HUNDRED", 0, false, true)],
    EXPECTED_CODE[..6], [], 306)
  const S8: AsmState := S7.(code := EXPECTED_CODE[..7], lc := 307)
  const S9: AsmState := S8.(symbols := S8.symbols[1 := Symbol("NUM", 307, true, true)], lc := 309)
  const S10: AsmState := AsmState(EXPECTED_SYMBOLS, EXPECTED_CODE, [], 310)

  lemma Line0()
    ensures PartsParse(PROGRAM[0]) && ProcessParts(INITIAL, 0, PROGRAM[0]) == S1
  {
    var p := PROGRAM[0];
    assert p == LineParts(None, "START", ["300"]);
    Numeral(300, "300");
  }

  lemma Line1()
    ensures PartsParse(PROGRAM[1]) && ProcessParts(S1, 1, PROGRAM[1]) == S2
  {
    var p := PROGRAM[1];
    assert p == LineParts(Some("BEGIN"), "READ", ["NUM"]);
    assert FindSymbol([Symbol("BEGIN", 300, true, false)], "NUM") == None;
    assert Lookup(OPCODE_TABLE, "READ") == Some(9);
    Dispatch(S1, 1, p, 9);
  }

  lemma Line2()
    ensures PartsParse(PROGRAM[2]) && ProcessParts(S2, 2, PROGRAM[2]) == S3
  {
    var p := PROGRAM[2];
    assert p == LineParts(Some("LOOP"), "MOVEM", ["AREG", "NUM"]);
    assert FindSymbol(S2.symbols, "LOOP") == None;
    assert BindLabel(S2, p) == S2.(symbols := S3.symbols);
    assert FindSymbol(S3.symbols, "NUM") == Some(1);
    assert Lookup(OPCODE_TABLE, "MOVEM") == Some(5);
    Dispatch(S2, 2, p, 5);
  }

  lemma Line3()
    ensures PartsParse(PROGRAM[3]) && ProcessParts(S3, 3, PROGRAM[3]) == S4
  {
    var p := PROGRAM[3];
    assert p == LineParts(None, "PRINT", ["NUM"]);
    assert FindSymbol(S3.symbols, "NUM") == Some(1);
    assert Lookup(OPCODE_TABLE, "PRINT") == Some(10);
    Dispatch(S3, 3, p, 10);
  }

  lemma Line4()
    ensures PartsParse(PROGRAM[4]) && ProcessParts(S4, 4, PROGRAM[4]) == S5
  {
    var p := PROGRAM[4];
    assert p == LineParts(None, "MUL", ["AREG", "NUM"]);
    assert FindSymbol(S4.symbols, "NUM") == Some(1);
    assert Lookup(OPCODE_TABLE, "MUL") == Some(3);
    Dispatch(S4, 4, p, 3);
  }

  lemma Line5()
    ensures PartsParse(PROGRAM[5]) && ProcessParts(S5, 5, PROGRAM[5]) == S6
  {
    var p := PROGRAM[5];
    assert p == LineParts(None, "COMP", ["AREG", "HUNDRED"]);
    assert FindSymbol(S5.symbols, "HUNDRED") == None;
    assert Lookup(OPCODE_TABLE, "COMP") == Some(6);
    Dispatch(S5, 5, p, 6);
  }

  lemma Line6()
    ensures PartsParse(PROGRAM[6]) && ProcessParts(S6, 6, PROGRAM[6]) == S7
  {
    var p := PROGRAM[6];
    assert p == LineParts(None, "BC", ["LT", "LOOP"]);
    assert FindSymbol(S6.symbols, "LOOP") == Some(2);
    assert Lookup(OPCODE_TABLE, "BC") == Some(7);
    Dispatch(S6, 6, p, 7);
  }

  lemma Line7()
    ensures PartsParse(PROGRAM[7]) && ProcessParts(S7, 7, PROGRAM[7]) == S8
  {
    var p := PROGRAM[7];
    assert p == LineParts(None, "STOP", []);
    assert Lookup(OPCODE_TABLE, "STOP") == Some(0);
    Dispatch(S7, 7, p, 0);
  }

  lemma Line8()
    ensures PartsParse(PROGRAM[8]) && ProcessParts(S8, 8, PROGRAM[8]) == S9
  {
    var p := PROGRAM[8];
    assert p == LineParts(Some("NUM"), "DS", ["2"]);
    Numeral(2, "2");
    assert FindSymbol(S8.symbols, "NUM") == Some(1);
    assert Lookup(OPCODE_TABLE, "DS") == Some(11);
    Dispatch(S8, 8, p, 11);
  }

  lemma Line9()
    ensures PartsParse(PROGRAM[9]) && ProcessParts(S9, 9, PROGRAM[9]) == S10
  {
    var p := PROGRAM[9];
    assert p == LineParts(Some("HUNDRED"), "DC", ["100"]);
    Numeral(100, "100");
    assert FindSymbol(S9.symbols, "HUNDRED") == Some(3);
    assert Lookup(OPCODE_TABLE, "DC") == Some(12);
    Dispatch(S9, 9, p, 12);
  }

  lemma Line10()
    ensures PartsParse(PROGRAM[10]) && ProcessParts(S10, 10, PROGRAM[10]) == S10
  {
    var p := PROGRAM[10];
    assert p == LineParts(None, "END", []);
  }

  /** The state after the first `k` lines of the program. */
  function After(k: nat): AsmState
    requires k <= 11
  {
    if k == 0 then INITIAL else if k == 1 then S1 else if k == 2 then S2
    else if k == 3 then S3 else if k == 4 then S4 else if k == 5 then S5
    else if k == 6 then S6 else if k == 7 then S7 else if k == 8 then S8
    else if k == 9 then S9 else S10
  }

  lemma LineSteps(k: nat)
    requires k < 11
    ensures PartsParse(PROGRAM[k]) && ProcessParts(After(k), k, PROGRAM[k]) == After(k + 1)
  {
    if k == 0 { Line0(); } else if k == 1 { Line1(); } else if k == 2 { Line2(); }
    else if k == 3 { Line3(); } else if k == 4 { Line4(); } else if k == 5 { Line5(); }
    else if k == 6 { Line6(); } else if k == 7 { Line7(); } else if k == 8 { Line8(); }
    else if k == 9 { Line9(); } else { Line10(); }
  }

  /** Every line of a source that splits into the program passes the directive check. */
  lemma ProgramParses(lines: seq<string>)
    requires |lines| == |PROGRAM| && forall i :: 0 <= i < |lines| ==> LinePartsOf(lines[i]) == PROGRAM[i]
    ensures AllDirectivesParse(lines)
  {
    forall i | 0 <= i < |lines| ensures DirectivesParse(lines[i]) {
      LineSteps(i);
    }
  }

  /** After the first `k` lines of any source that splits into the program, the state is `After(k)`. */
  lemma {:induction false} Prefix(lines: seq<string>, k: nat)
    requires |lines| == |PROGRAM| && forall i :: 0 <= i < |lines| ==> LinePartsOf(lines[i]) == PROGRAM[i]
    requires AllDirectivesParse(lines) && k <= |lines|
    ensures AllDirectivesParse(lines[..k]) && ProcessLines(INITIAL, lines[..k]) == After(k)
  {
    if k > 0 {
      Prefix(lines, k - 1);
      ProcessLinesStep(INITIAL, lines, k - 1);
      LineSteps(k - 1);
    }
  }

  /**
   * The assembler's test: a source whose lines split into the program
   * leaves the four symbols and eight records the test expects, and no
   * error (every symbol used is also defined, so the sweep adds nothing).
   */
  lemma Example(lines: seq<string>)
    requires |lines| == |PROGRAM| && forall i :: 0 <= i < |lines| ==> LinePartsOf(lines[i]) == PROGRAM[i]
    ensures AllDirectivesParse(lines)
    ensures Pass1(INITIAL, lines) == AsmState(EXPECTED_SYMBOLS, EXPECTED_CODE, [], 310)
  {
    ProgramParses(lines);
    assert |lines| == 11;
    Prefix(lines, 11);
    assert lines[..11] == lines;
    AfterAll();
    SameLines(lines[..11], lines, S10);
    assert CheckUndefinedSymbols(S10) == S10 by {
      NothingUndefined();
    }
  }

  lemma AfterAll()
    ensures After(11) == S10
  {
  }

  lemma SameLines(a: seq<string>, b: seq<string>, expected: AsmState)
    requires a == b && AllDirectivesParse(a) && ProcessLines(INITIAL, a) == expected
    ensures AllDirectivesParse(b) && Pass1(INITIAL, b) == CheckUndefinedSymbols(expected)
  {
  }

  lemma NothingUndefined()
    ensures UndefinedErrors(EXPECTED_SYMBOLS) == []
  {
    var s := EXPECTED_SYMBOLS;
    assert forall i :: 0 <= i < |s| ==> s[i].defined;
    assert (set i | 0 <= i < |s| && s[i].used && !s[i].defined) == {};
    UndefinedErrorsCount(s);
  }

  /**
   * The test's source text, each line already trimmed (trimming leaves
   * these lines as they are, and no line is empty).
   */
  const SOURCE: seq<string> := [
    "START 300",
    "BEGIN: READ NUM",
    "LOOP: MOVEM AREG NUM",
    "PRINT NUM",
    "MUL AREG NUM",
    "COMP AREG HUNDRED",
    "BC LT LOOP",
    "STOP",
    "NUM: DS 2",
    "HUNDRED: DC 100",
    "END"
  ]

  /** A mnemonic and its operands, joined by single spaces, split back apart. */
  lemma SplitStatement(mnemonic: string, ops: seq<string>)
    requires IsToken(mnemonic) && forall i :: 0 <= i < |ops| ==> IsToken(ops[i])
    ensures SplitWhitespace(Join([mnemonic] + ops, " ")) == [mnemonic] + ops
  {
    var toks := [mnemonic] + ops;
    forall i | 0 <= i < |toks| ensures IsToken(toks[i]) {
      if i > 0 {
        assert toks[i] == ops[i - 1];
      }
    }
    SplitJoinedTokens(toks);
  }

  /** An unlabelled line: its first token, which has no colon, is the mnemonic. */
  lemma PlainLine(line: string, mnemonic: string, ops: seq<string>)
    requires IsToken(mnemonic) && !EndsWith(mnemonic, ":")
    requires forall i :: 0 <= i < |ops| ==> IsToken(ops[i])
    requires line == Join([mnemonic] + ops, " ")
    ensures LinePartsOf(line) == LineParts(None, mnemonic, ops)
  {
    SplitStatement(mnemonic, ops);
    assert ([mnemonic] + ops)[1..] == ops;
  }

  /** A label token, a space and a statement split into the label and the statement's tokens. */
  lemma SplitLabelled(line: string, tok: string, mnemonic: string, ops: seq<string>)
    requires IsToken(tok) && IsToken(mnemonic)
    requires forall i :: 0 <= i < |ops| ==> IsToken(ops[i])
    requires line == tok + " " + Join([mnemonic] + ops, " ")
    ensures SplitWhitespace(line) == [tok] + ([mnemonic] + ops)
  {
    var rest := Join([mnemonic] + ops, " ");
    var tail := " " + rest;
    assert line == tok + tail;
    assert SplitWhitespace(tail) == [mnemonic] + ops by {
      SplitAfterSpace(rest);
      SplitStatement(mnemonic, ops);
    }
    assert tail[0] == ' ';
    SplitAfterToken(tok, tail);
  }

  /** A name followed by a colon is a token that ends in a colon and drops back to the name. */
  lemma LabelToken(name: string)
    requires IsToken(name)
    ensures var tok := name + ":"; IsToken(tok) && EndsWith(tok, ":") && tok[..|tok| - 1] == name
  {
    var tok := name + ":";
    assert forall i :: 0 <= i < |name| ==> tok[i] == name[i];
    assert tok[|name|] == ':';
    assert tok[|tok| - 1..] == ":";
  }

  /** A labelled line: its first token is a name and a colon, and the name is the label. */
  lemma LabelledLine(line: string, name: string, mnemonic: string, ops: seq<string>)
    requires IsToken(name) && IsToken(mnemonic)
    requires forall i :: 0 <= i < |ops| ==> IsToken(ops[i])
    requires line == name + ":" + " " + Join([mnemonic] + ops, " ")
    ensures LinePartsOf(line) == LineParts(Some(name), mnemonic, ops)
  {
    var tok := name + ":";
    LabelToken(name);
    SplitLabelled(line, tok, mnemonic, ops);
    var stmt := [mnemonic] + ops;
    var toks := [tok] + stmt;
    assert stmt[1..] == ops;
    assert toks[1..] == stmt;
  }

  // Each line of the source text, split as pass 1 splits it, is the
  // corresponding line of the program.

  lemma Source0()
    ensures LinePartsOf(SOURCE[0]) == PROGRAM[0]
  {
    var line := SOURCE[0];
    assert line == "START" + " " + "300";
    assert Join(["START", "300"], " ") == line;
    PlainLine(line, "START", ["300"]);
  }

  lemma Source1()
    ensures LinePartsOf(SOURCE[1]) == PROGRAM[1]
  {
    var line := SOURCE[1];
    assert line == "BEGIN" + ":" + " " + ("READ" + " " + "NUM");
    assert Join(["READ", "NUM"], " ") == "READ" + " " + "NUM";
    LabelledLine(line, "BEGIN", "READ", ["NUM"]);
  }


  lemma Source2()
    ensures LinePartsOf(SOURCE[2]) == PROGRAM[2]
  {
    var line := SOURCE[2];
    assert line == "LOOP" + ":" + " " + ("MOVEM" + " " + ("AREG" + " " + "NUM"));
    assert Join(["MOVEM", "AREG", "NUM"], " ") == "MOVEM" + " " + ("AREG" + " " + "NUM") by {
      assert Join(["AREG", "NUM"], " ") == "AREG" + " " + "NUM";
    }
    LabelledLine(line, "LOOP", "MOVEM", ["AREG", "NUM"]);
  }


  lemma Source3()
    ensures LinePartsOf(SOURCE[3]) == PROGRAM[3]
  {
    var line := SOURCE[3];
    assert line == "PRINT" + " " + "NUM";
    assert Join(["PRINT", "NUM"], " ") == line;
    PlainLine(line, "PRINT", ["NUM"]);
  }

  lemma Source4()
    ensures LinePartsOf(SOURCE[4]) == PROGRAM[4]
  {
    var line := SOURCE[4];
    assert line == "MUL" + " " + ("AREG" + " " + "NUM");
    assert Join(["MUL", "AREG", "NUM"], " ") == line by {
      assert Join(["AREG", "NUM"], " ") == "AREG" + " " + "NUM";
    }
    PlainLine(line, "MUL", ["AREG", "NUM"]);
  }

  lemma Source5()
    ensures LinePartsOf(SOURCE[5]) == PROGRAM[5]
  {
    var line := SOURCE[5];
    assert line == "COMP" + " " + ("AREG" + " " + "HUNDRED");
    assert Join(["COMP", "AREG", "HUNDRED"], " ") == line by {
      assert Join(["AREG", "HUNDRED"], " ") == "AREG" + " " + "HUNDRED";
    }
    PlainLine(line, "COMP", ["AREG", "HUNDRED"]);
  }

  lemma Source6()
    ensures LinePartsOf(SOURCE[6]) == PROGRAM[6]
  {
    var line := SOURCE[6];
    assert line == "BC" + " " + ("LT" + " " + "LOOP");
    assert Join(["BC", "LT", "LOOP"], " ") == line by {
      assert Join(["LT", "LOOP"], " ") == "LT" + " " + "LOOP";
    }
    PlainLine(line, "BC", ["LT", "LOOP"]);
  }

  lemma Source7()
    ensures LinePartsOf(SOURCE[7]) == PROGRAM[7]
  {
    var line := SOURCE[7];
    PlainLine(line, "STOP", []);
  }

  lemma Source8()
    ensures LinePartsOf(SOURCE[8]) == PROGRAM[8]
  {
    var line := SOURCE[8];
    assert line == "NUM" + ":" + " " + ("DS" + " " + "2");
    assert Join(["DS", "2"], " ") == "DS" + " " + "2";
    LabelledLine(line, "NUM", "DS", ["2"]);
  }


  lemma Source9()
    ensures LinePartsOf(SOURCE[9]) == PROGRAM[9]
  {
    var line := SOURCE[9];
    assert line == "HUNDRED" + ":" + " " + ("DC" + " " + "100");
    assert Join(["DC", "100"], " ") == "DC" + " " + "100";
    LabelledLine(line, "HUNDRED", "DC", ["100"]);
  }


  lemma Source10()
    ensures LinePartsOf(SOURCE[10]) == PROGRAM[10]
  {
    var line := SOURCE[10];
    PlainLine(line, "END", []);
  }

  /** Each line of the test's source splits into the program's line. */
  lemma SourceSplits()
    ensures |SOURCE| == |PROGRAM|
    ensures forall i :: 0 <= i < |SOURCE| ==> LinePartsOf(SOURCE[i]) == PROGRAM[i]
  {
    forall k | 0 <= k < |SOURCE| ensures LinePartsOf(SOURCE[k]) == PROGRAM[k] {
      if k == 0 { Source0(); } else if k == 1 { Source1(); } else if k == 2 { Source2(); }
      else if k == 3 { Source3(); } else if k == 4 { Source4(); } else if k == 5 { Source5(); }
      else if k == 6 { Source6(); } else if k == 7 { Source7(); } else if k == 8 { Source8(); }
      else if k == 9 { Source9(); } else { Source10(); }
    }
  }

  /**
   * The assembler's test on its own source text: pass 1 leaves the four
   * symbols and eight records the test expects, and no error.
   */
  lemma TestProgram()
    ensures AllDirectivesParse(SOURCE)
    ensures Pass1(INITIAL, SOURCE) == AsmState(EXPECTED_SYMBOLS, EXPECTED_CODE, [], 310)
  {
    SourceSplits();
    Example(SOURCE);
  }
}

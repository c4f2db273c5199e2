/**
 * The line buffer of the line editor. `LineGod` holds the lines of the file
 * and changes them in place: `insert` splices the lines typed in input mode
 * in at an index, `append` adds them at the end. `fetch_lines` and `find`
 * only read the buffer, so here they are functions of its lines. The
 * command handler of `TextEditor` checks the arguments of a command line
 * and dispatches to the buffer.
 *
 * Standard input is a sequence of lines given to each operation; a method
 * that reads it also returns how many of those lines it took.
 */
module LineEditor {
  import opened Wrappers
  import opened Strings

  /** `ErrorType`; the boxed cause of a `WriteErr` is not kept. */
  datatype ErrorType = TypeErr | RangeError | WriteErr | FileEmpty | CmdErr | ArgCountErr

  /** No line holds a line feed, as every line read by `BufRead::lines` does. */
  predicate NoNewlines(lines: seq<string>) {
    forall i :: 0 <= i < |lines| ==> '\n' !in lines[i]
  }

  // ---------------------------------------------------------------------
  // Input mode
  // ---------------------------------------------------------------------

  /** The line that ends input mode: its trim is ".". */
  predicate IsTerminator(line: string) {
    Trim(line) == "."
  }

  /** The lines `input_mode` keeps: each right-trimmed, up to the first terminator. */
  function Collected(input: seq<string>): seq<string> {
    if input == [] || IsTerminator(input[0]) then []
    else [TrimEnd(input[0])] + Collected(input[1..])
  }

  /** The number of lines `input_mode` reads: up to and including the first terminator. */
  function Consumed(input: seq<string>): nat {
    if input == [] then 0
    else if IsTerminator(input[0]) then 1
    else 1 + Consumed(input[1..])
  }

  /** The index of the first terminator, or the length of the input when there is none. */
  function TerminatorIndex(input: seq<string>): (k: nat)
    ensures k <= |input|
    ensures forall i :: 0 <= i < k ==> !IsTerminator(input[i])
    ensures k < |input| ==> IsTerminator(input[k])
  {
    if input == [] || IsTerminator(input[0]) then 0
    else
      var k := TerminatorIndex(input[1..]);
      assert forall i :: 0 <= i < |input| - 1 ==> input[1..][i] == input[i + 1];
      assert k < |input| - 1 ==> IsTerminator(input[k + 1]);
      1 + k
  }

  /**
   * Input mode keeps exactly the lines before the first terminator, each
   * right-trimmed, and reads the terminator too when there is one.
   */
  lemma {:induction false} CollectedBeforeTerminator(input: seq<string>)
    ensures var k := TerminatorIndex(input);
      && |Collected(input)| == k
      && (forall i :: 0 <= i < k ==> Collected(input)[i] == TrimEnd(input[i]))
      && Consumed(input) == (if k < |input| then k + 1 else k)
  {
    if input != [] && !IsTerminator(input[0]) {
      CollectedBeforeTerminator(input[1..]);
      var k, c, rest := TerminatorIndex(input), Collected(input), Collected(input[1..]);
      assert c == [TrimEnd(input[0])] + rest;
      forall i | 0 <= i < k ensures c[i] == TrimEnd(input[i]) {
        if i > 0 {
          assert c[i] == rest[i - 1] && input[1..][i - 1] == input[i];
        }
      }
    }
  }

  /** The line ends in no whitespace. */
  predicate EndTrimmed(line: string) {
    line == [] || !IsWhitespace(line[|line| - 1])
  }

  /** Every kept line ends in no whitespace. */
  lemma {:induction false} CollectedTrimmed(input: seq<string>)
    ensures forall i :: 0 <= i < |Collected(input)| ==> EndTrimmed(Collected(input)[i])
  {
    if input != [] && !IsTerminator(input[0]) {
      CollectedTrimmed(input[1..]);
      var r, rest := Collected(input), Collected(input[1..]);
      assert r == [TrimEnd(input[0])] + rest;
      forall i | 0 <= i < |r| ensures EndTrimmed(r[i]) {
        if i == 0 {
          assert r[0] == TrimEnd(input[0]);
        } else {
          assert r[i] == rest[i - 1] && EndTrimmed(rest[i - 1]);
        }
      }
    }
  }

  /** The kept lines hold no line feed when the input holds none. */
  lemma {:induction false} CollectedNoNewlines(input: seq<string>)
    requires NoNewlines(input)
    ensures NoNewlines(Collected(input))
  {
    if input != [] && !IsTerminator(input[0]) {
      assert NoNewlines(input[1..]) by {
        forall i | 0 <= i < |input[1..]| ensures '\n' !in input[1..][i] {
          assert input[1..][i] == input[i + 1];
        }
      }
      CollectedNoNewlines(input[1..]);
      var r, rest := Collected(input), Collected(input[1..]);
      assert r == [TrimEnd(input[0])] + rest;
      forall i | 0 <= i < |r| ensures '\n' !in r[i] {
        if i == 0 {
          var t := TrimEnd(input[0]);
          assert t == input[0][..|t|];
        } else {
          assert r[i] == rest[i - 1];
        }
      }
    }
  }

  // ---------------------------------------------------------------------
  // The buffer
  // ---------------------------------------------------------------------

  /** `LineGod`: the lines of the file being edited. */
  class LineGod {
    var lines: seq<string>

    /** `LineGod::new`. */
    constructor(lines: seq<string>)
      ensures this.lines == lines
    {
      this.lines := lines;
    }

    /**
     * `input_mode`: read lines until one whose trim is "."; keep the others
     * right-trimmed. Returns the kept lines and the number of lines read.
     */
    method InputMode(input: seq<string>) returns (buffer: seq<string>, read: nat)
      ensures buffer == Collected(input) && read == Consumed(input)
    {
      buffer, read := [], 0;
      while read < |input|
        invariant read <= |input|
        invariant buffer + Collected(input[read..]) == Collected(input)
        invariant read + Consumed(input[read..]) == Consumed(input)
      {
        var line := input[read];
        assert input[read..][1..] == input[read + 1..];
        read := read + 1;
        if Trim(line) == "." {
          assert buffer + [] == buffer;
          return;
        }
        buffer := buffer + [TrimEnd(line)];
      }
    }

    /**
     * `insert`: splice the lines of input mode in at `index` (0 when
     * absent). An index past the end is a `RangeError`, before any input
     * is read.
     */
    method Insert(index: Option<nat>, input: seq<string>) returns (r: Result<(), ErrorType>, read: nat)
      modifies this
      ensures var idx := index.UnwrapOr(0);
        if idx > |old(lines)| then r == Err(RangeError) && read == 0 && lines == old(lines)
        else (r == Ok(()) && read == Consumed(input)
              && lines == old(lines)[..idx] + Collected(input) + old(lines)[idx..])
    {
      var idx := index.UnwrapOr(0);
      if idx > |lines| {
        return Err(RangeError), 0;
      }
      var buffer;
      buffer, read := InputMode(input);
      lines := lines[..idx] + buffer + lines[idx..];
      r := Ok(());
    }

    /** `append`: add the lines of input mode at the end. */
    method Append(input: seq<string>) returns (r: Result<(), ErrorType>, read: nat)
      modifies this
      ensures r == Ok(()) && read == Consumed(input) && lines == old(lines) + Collected(input)
    {
      var buffer;
      buffer, read := InputMode(input);
      lines := lines + buffer;
      r := Ok(());
    }
  }

  /**
   * `insert` keeps the old lines around the new ones: the first `idx` old
   * lines, then the input, then the rest, and the buffer stays free of line
   * feeds when the input is.
   */
  lemma InsertKeepsLines(old_lines: seq<string>, idx: nat, input: seq<string>)
    requires idx <= |old_lines|
    ensures var r := old_lines[..idx] + Collected(input) + old_lines[idx..];
      && |r| == |old_lines| + |Collected(input)|
      && r[..idx] == old_lines[..idx]
      && r[idx..idx + |Collected(input)|] == Collected(input)
      && r[idx + |Collected(input)|..] == old_lines[idx..]
      && (NoNewlines(old_lines) && NoNewlines(input) ==> NoNewlines(r))
  {
    var c := Collected(input);
    var r := old_lines[..idx] + c + old_lines[idx..];
    if NoNewlines(old_lines) && NoNewlines(input) {
      CollectedNoNewlines(input);
      forall i | 0 <= i < |r| ensures '\n' !in r[i] {
        if i < idx {
          assert r[i] == old_lines[i];
        } else if i < idx + |c| {
          assert r[i] == c[i - idx];
        } else {
          assert r[i] == old_lines[i - |c|];
        }
      }
    }
  }

  // ---------------------------------------------------------------------
  // Reading the buffer
  // ---------------------------------------------------------------------

  /**
   * `fetch_lines`: lines `start..=end` joined by line feeds, all lines when
   * no range is given. An empty buffer is `FileEmpty`, a reversed range or
   * one past the last line a `RangeError`.
   */
  function FetchLines(lines: seq<string>, range: Option<(nat, nat)>): (r: Result<Option<string>, ErrorType>)
    ensures lines == [] <==> r == Err(FileEmpty)
    ensures lines != [] ==>
      var (start, end) := range.UnwrapOr((0, |lines| - 1));
      (r == Err(RangeError) <==> start > end || end >= |lines|)
    ensures r.Ok? ==> r.value.Some?
  {
    if lines == [] then Err(FileEmpty)
    else
      var (start, end) := range.UnwrapOr((0, |lines| - 1));
      if start > end || end >= |lines| then Err(RangeError)
      else Ok(Some(Join(lines[start..end + 1], "\n")))
  }

  /** Splitting what `fetch_lines` returns at its line feeds gives back exactly the fetched lines. */
  lemma FetchedLines(lines: seq<string>, start: nat, end: nat)
    requires NoNewlines(lines) && start <= end < |lines|
    ensures var r := FetchLines(lines, Some((start, end)));
      r.Ok? && SplitOn(r.value.value, '\n') == lines[start..end + 1]
  {
    var part := lines[start..end + 1];
    forall i | 0 <= i < |part| ensures '\n' !in part[i] {
      assert part[i] == lines[start + i];
    }
    assert FetchLines(lines, Some((start, end))) == Ok(Some(Join(part, "\n")));
    assert "\n" == ['\n'];
    SplitOnJoin(part, '\n');
  }

  /** The lines holding `needle`, in their order in the buffer. */
  function Matching(lines: seq<string>, needle: string): (r: seq<string>)
    ensures |r| <= |lines|
    ensures forall i :: 0 <= i < |r| ==> Contains(r[i], needle)
  {
    if lines == [] then []
    else
      var rest := Matching(lines[1..], needle);
      if Contains(lines[0], needle) then [lines[0]] + rest else rest
  }

  /**
   * The filter keeps order: the matches of two pieces of the buffer are the
   * matches of the first, then those of the second.
   */
  lemma {:induction false} MatchingConcat(a: seq<string>, b: seq<string>, needle: string)
    ensures Matching(a + b, needle) == Matching(a, needle) + Matching(b, needle)
  {
    if a == [] {
      assert a + b == b;
    } else {
      assert (a + b)[1..] == a[1..] + b;
      MatchingConcat(a[1..], b, needle);
    }
  }

  /** A line is kept exactly when the buffer has it and it holds `needle`. */
  lemma {:induction false} MatchingMembers(lines: seq<string>, needle: string, line: string)
    ensures line in Matching(lines, needle) <==> line in lines && Contains(line, needle)
  {
    if lines != [] {
      MatchingMembers(lines[1..], needle, line);
      assert line in lines <==> line == lines[0] || line in lines[1..];
    }
  }

  /** `find`: the lines holding `needle`, joined by line feeds; it never fails. */
  function Find(lines: seq<string>, needle: string): (r: Result<Option<string>, ErrorType>)
    ensures r.Ok? && r.value.Some?
  {
    Ok(Some(Join(Matching(lines, needle), "\n")))
  }

  /** Splitting what `find` returns at its line feeds gives back the matching lines. */
  lemma FoundLines(lines: seq<string>, needle: string)
    requires NoNewlines(lines) && Matching(lines, needle) != []
    ensures SplitOn(Find(lines, needle).value.value, '\n') == Matching(lines, needle)
  {
    var m := Matching(lines, needle);
    forall i | 0 <= i < |m| ensures '\n' !in m[i] {
      MatchingMembers(lines, needle, m[i]);
    }
    assert "\n" == ['\n'];
    SplitOnJoin(m, '\n');
  }

  // ---------------------------------------------------------------------
  // Commands
  // ---------------------------------------------------------------------

  /** A command line the handler accepts, with its arguments decoded. */
  datatype Command =
    | InsertCmd(index: Option<nat>)
    | AppendCmd
    | PrintCmd(first: nat, last: nat)
    | FindCmd(needle: string)
    | SaveCmd
    | QuitCmd

  /** The command words `command_handler` knows. */
  predicate IsCommandWord(w: string) {
    w == "i" || w == "a" || w == "p" || w == "f" || w == "s" || w == "q"
  }

  /**
   * A `usize` argument of `p`: a missing one is an `ArgCountErr`, one that
   * does not parse a `TypeErr`.
   */
  function NumberArgument(args: seq<string>, k: nat): (r: Result<nat, ErrorType>)
    ensures r.Ok? <==> k < |args| && ParseUsize(args[k]).Some?
    ensures r.Ok? ==> r.value == ParseUsize(args[k]).value
    ensures r.Err? ==> r.error == (if k < |args| then TypeErr else ArgCountErr)
  {
    if k >= |args| then Err(ArgCountErr)
    else
      var n := ParseUsize(args[k]);
      if n.None? then Err(TypeErr) else Ok(n.value)
  }

  /**
   * The argument checks of `command_handler` on the words of a command line:
   * the first word picks the command; `i` takes an optional index that is
   * dropped when it does not parse; `p` needs two numbers, checked first to
   * last; `f` needs a needle; words after those are ignored.
   */
  function ParseArgs(args: seq<string>): (r: Result<Command, ErrorType>)
  {
    if args == [] then Err(CmdErr)
    else if args[0] == "i" then Ok(InsertCmd(if |args| > 1 then ParseUsize(args[1]) else None))
    else if args[0] == "a" then Ok(AppendCmd)
    else if args[0] == "p" then
      var first := NumberArgument(args, 1);
      if first.Err? then Err(first.error)
      else
        var last := NumberArgument(args, 2);
        if last.Err? then Err(last.error) else Ok(PrintCmd(first.value, last.value))
    else if args[0] == "f" then
      if |args| < 2 then Err(ArgCountErr) else Ok(FindCmd(args[1]))
    else if args[0] == "s" then Ok(SaveCmd)
    else if args[0] == "q" then Ok(QuitCmd)
    else Err(CmdErr)
  }

  /** `command_handler`'s parsing of a command line: its whitespace-separated words. */
  function ParseCommand(input: string): Result<Command, ErrorType> {
    ParseArgs(SplitWhitespace(input))
  }

  /** Only an empty line or an unknown first word is a `CmdErr`. */
  lemma UnknownCommand(args: seq<string>)
    ensures ParseArgs(args) == Err(CmdErr) <==> args == [] || !IsCommandWord(args[0])
  {
  }

  /**
   * The argument errors: `p` with a missing argument is an `ArgCountErr`
   * and with an unparsable one a `TypeErr`, whichever it meets first; `f`
   * without a needle is an `ArgCountErr`; `i`, `a`, `s` and `q` never fail.
   */
  lemma ArgumentErrors(args: seq<string>)
    requires args != [] && IsCommandWord(args[0])
    ensures args[0] == "p" ==>
      (ParseArgs(args) == Err(ArgCountErr) <==>
         |args| < 2 || (ParseUsize(args[1]).Some? && |args| < 3))
      && (ParseArgs(args) == Err(TypeErr) <==>
         |args| >= 2 && (ParseUsize(args[1]).None? || (|args| >= 3 && ParseUsize(args[2]).None?)))
    ensures args[0] == "f" ==> (ParseArgs(args).Err? <==> |args| < 2)
    ensures args[0] in ["i", "a", "s", "q"] ==> ParseArgs(args).Ok?
  {
  }

  /** The words of a command line that reads back as `c`. */
  function Words(c: Command): seq<string> {
    match c
    case InsertCmd(index) => if index.None? then ["i"] else ["i", NatToDecimal(index.value)]
    case AppendCmd => ["a"]
    case PrintCmd(first, last) => ["p", NatToDecimal(first), NatToDecimal(last)]
    case FindCmd(needle) => ["f", needle]
    case SaveCmd => ["s"]
    case QuitCmd => ["q"]
  }

  /** A command that a command line can express: numbers fit a `usize`, the needle is a token. */
  predicate Expressible(c: Command) {
    match c
    case InsertCmd(index) => index.None? || index.value <= USIZE_MAX
    case PrintCmd(first, last) => first <= USIZE_MAX && last <= USIZE_MAX
    case FindCmd(needle) => IsToken(needle)
    case _ => true
  }

  /** A decimal rendering is a single word. */
  lemma DecimalIsToken(n: nat)
    ensures IsToken(NatToDecimal(n))
  {
    var s := NatToDecimal(n);
    assert forall i :: 0 <= i < |s| ==> IsDigit(s[i]);
  }

  /** The words of an expressible command are tokens. */
  lemma WordsAreTokens(c: Command)
    requires Expressible(c)
    ensures forall i :: 0 <= i < |Words(c)| ==> IsToken(Words(c)[i])
  {
    match c {
      case InsertCmd(index) =>
        if index.Some? {
          DecimalIsToken(index.value);
        }
      case PrintCmd(first, last) =>
        DecimalIsToken(first);
        DecimalIsToken(last);
      case _ =>
    }
  }

  /**
   * `c`'s words parse back to `c`, and words after the last argument
   * change nothing, unless they would supply the optional index of `i`.
   */
  lemma ParseWords(c: Command, extra: seq<string>)
    requires Expressible(c)
    requires c == InsertCmd(None) ==> extra == []
    ensures ParseArgs(Words(c) + extra) == Ok(c)
  {
    var args := Words(c) + extra;
    assert args[0] == Words(c)[0];
    match c {
      case InsertCmd(index) =>
        if index.Some? {
          ParseDecimal(index.value);
          assert args[1] == NatToDecimal(index.value);
        } else {
          assert args == ["i"];
        }
      case PrintCmd(first, last) =>
        ParseDecimal(first);
        ParseDecimal(last);
        assert args[1] == NatToDecimal(first) && args[2] == NatToDecimal(last);
      case FindCmd(needle) =>
        assert args[1] == needle;
      case _ =>
    }
  }

  /** Round trip: the command line of `c`'s words joined by single spaces parses back to `c`. */
  lemma ParseRendered(c: Command)
    requires Expressible(c)
    ensures ParseCommand(Join(Words(c), " ")) == Ok(c)
  {
    WordsAreTokens(c);
    SplitJoinedTokens(Words(c));
    ParseWords(c, []);
    assert Words(c) + [] == Words(c);
  }

  // ---------------------------------------------------------------------
  // The editor
  // ---------------------------------------------------------------------

  /**
   * `TextEditor` with its buffer; the file behind it is not part of this
   * model, so whether saving succeeds is given to the handler.
   */
  class TextEditor {
    const lineGod: LineGod

    constructor(lines: seq<string>)
      ensures fresh(lineGod) && lineGod.lines == lines
    {
      lineGod := new LineGod(lines);
    }

    /**
     * `command_handler`: run one command line against the buffer, reading
     * lines from `stdin` in input mode. Argument errors leave the buffer
     * alone; `q` answers "kill"; `s` fails with `WriteErr` when the file
     * cannot be written.
     */
    method CommandHandler(input: string, stdin: seq<string>, written: bool)
      returns (r: Result<Option<string>, ErrorType>, read: nat)
      modifies lineGod
      ensures match ParseCommand(input)
        case Err(e) => r == Err(e) && read == 0 && lineGod.lines == old(lineGod.lines)
        case Ok(InsertCmd(index)) =>
          var idx := index.UnwrapOr(0);
          if idx > |old(lineGod.lines)| then
            r == Err(RangeError) && read == 0 && lineGod.lines == old(lineGod.lines)
          else (r == Ok(None) && read == Consumed(stdin)
                && lineGod.lines == old(lineGod.lines)[..idx] + Collected(stdin) + old(lineGod.lines)[idx..])
        case Ok(AppendCmd) =>
          r == Ok(None) && read == Consumed(stdin) && lineGod.lines == old(lineGod.lines) + Collected(stdin)
        case Ok(PrintCmd(first, last)) =>
          r == FetchLines(old(lineGod.lines), Some((first, last))) && read == 0
          && lineGod.lines == old(lineGod.lines)
        case Ok(FindCmd(needle)) =>
          r == Find(old(lineGod.lines), needle) && read == 0 && lineGod.lines == old(lineGod.lines)
        case Ok(SaveCmd) =>
          r == (if written then Ok(None) else Err(WriteErr)) && read == 0
          && lineGod.lines == old(lineGod.lines)
        case Ok(QuitCmd) => r == Ok(Some("kill")) && read == 0 && lineGod.lines == old(lineGod.lines)
    {
      var command := ParseCommand(input);
      read := 0;
      if command.Err? {
        return Err(command.error), 0;
      }
      match command.value {
        case InsertCmd(index) =>
          var done;
          done, read := lineGod.Insert(index, stdin);
          r := if done.Ok? then Ok(None) else Err(done.error);
        case AppendCmd =>
          var done;
          done, read := lineGod.Append(stdin);
          r := Ok(None);
        case PrintCmd(first, last) =>
          r := FetchLines(lineGod.lines, Some((first, last)));
        case FindCmd(needle) =>
          r := Find(lineGod.lines, needle);
        case SaveCmd =>
          r := if written then Ok(None) else Err(WriteErr);
        case QuitCmd =>
          r := Ok(Some("kill"));
      }
    }
  }
}

/**
 * The macro pre-processor as functions of its input. A source text is a
 * sequence of lines; a `MACRO` line opens a definition whose next line is
 * the header (the macro's name and its formal parameters `&p` or
 * `&p=default`) and whose body runs up to a line that trims to `MACROEND`.
 * A line whose first word names a defined macro is replaced by the macro's
 * body, with the parameters bound to the words after the name: first by
 * position, then by keyword `p=value`. Every other line is copied trimmed.
 *
 * A definition whose `MACRO` line is the last line, or whose header line
 * is blank, makes the program panic; here that is the outcome `None`.
 */
module MacroSpec {
  import opened Wrappers
  import opened Strings

  /** `MacroMetadata`: a definition, with each parameter's default value. */
  datatype MacroMetadata = MacroMetadata(
    name: string,
    params: seq<string>,
    paramWithValue: map<string, Option<string>>,
    body: seq<string>)

  /** The state after some lines: the macros defined and the lines written out. */
  datatype Outcome = Outcome(macros: seq<MacroMetadata>, output: seq<string>)

  /** Every line trimmed. */
  function TrimAll(lines: seq<string>): (r: seq<string>)
    ensures |r| == |lines| && forall i :: 0 <= i < |lines| ==> r[i] == Trim(lines[i])
  {
    if lines == [] then [] else [Trim(lines[0])] + TrimAll(lines[1..])
  }

  // ---------------------------------------------------------------------
  // The header
  // ---------------------------------------------------------------------

  /**
   * The formal parameter that one header word declares, with its default:
   * `&p=v` declares `p` with default `v`, `&p` declares `p` without one;
   * leading `&`s are all dropped from the name. Other words declare nothing.
   */
  function HeaderParam(token: string): Option<(string, Option<string>)> {
    var split := SplitOnce(token, '=');
    if split.Some? then
      var key := split.value.0;
      if StartsWith(key, "&") then Some((TrimStartMatches(key, '&'), Some(split.value.1))) else None
    else if StartsWith(token, "&") then Some((TrimStartMatches(token, '&'), None))
    else None
  }

  /** The formal parameters in the order declared, and the default of each. */
  datatype Formals = Formals(params: seq<string>, defaults: map<string, Option<string>>)

  /** What one header word declares: a formal with its default, or nothing. */
  type Declaration = Option<(string, Option<string>)>

  /**
   * The formals that declarations make, one after the other: each one
   * appends its name and sets its default, so a name declared twice
   * appears twice and keeps the later default.
   */
  function Collect(ds: seq<Declaration>): Formals {
    if ds == [] then Formals([], map[])
    else
      var f := Collect(ds[..|ds| - 1]);
      var d := ds[|ds| - 1];
      if d.None? then f else Formals(f.params + [d.value.0], f.defaults[d.value.0 := d.value.1])
  }

  /** What each header word declares. */
  function Declarations(tokens: seq<string>): seq<Declaration> {
    if tokens == [] then [] else Declarations(tokens[..|tokens| - 1]) + [HeaderParam(tokens[|tokens| - 1])]
  }

  /** The formals the header words declare, word after word. */
  function Declared(tokens: seq<string>): Formals {
    Collect(Declarations(tokens))
  }

  // ---------------------------------------------------------------------
  // The body
  // ---------------------------------------------------------------------

  /** The line that closes a definition. */
  predicate IsMacroEnd(line: string) {
    Trim(line) == "MACROEND"
  }

  /** The body lines: the lines trimmed, up to the first `MACROEND` or the end. */
  function BodyLines(lines: seq<string>): seq<string> {
    if lines == [] || IsMacroEnd(lines[0]) then []
    else [Trim(lines[0])] + BodyLines(lines[1..])
  }

  /** The number of lines the body takes: up to and including its `MACROEND`. */
  function BodyConsumed(lines: seq<string>): (n: nat)
    ensures n <= |lines|
  {
    if lines == [] then 0
    else if IsMacroEnd(lines[0]) then 1
    else 1 + BodyConsumed(lines[1..])
  }

  /**
   * `parse_macro` on the lines after a `MACRO` line: the definition and the
   * number of lines it takes, or `None` when there is no header line or the
   * header line is blank.
   */
  function Definition(lines: seq<string>): (r: Option<(MacroMetadata, nat)>)
    ensures r.Some? ==> 0 < r.value.1 <= |lines|
  {
    if lines == [] then None
    else
      var tokens := SplitWhitespace(lines[0]);
      if tokens == [] then None
      else
        var formals := Declared(tokens[1..]);
        var rest := lines[1..];
        Some((MacroMetadata(tokens[0], formals.params, formals.defaults, BodyLines(rest)),
              1 + BodyConsumed(rest)))
  }

  // ---------------------------------------------------------------------
  // Finding and binding
  // ---------------------------------------------------------------------

  /** `find_macro`: the index of the first macro with the name. */
  function FindMacro(macros: seq<MacroMetadata>, name: string): (r: Option<nat>)
    ensures r.None? <==> forall i :: 0 <= i < |macros| ==> macros[i].name != name
    ensures r.Some? ==> r.value < |macros| && macros[r.value].name == name
    ensures r.Some? ==> forall i :: 0 <= i < r.value ==> macros[i].name != name
  {
    if macros == [] then None
    else if macros[0].name == name then Some(0)
    else
      var r := FindMacro(macros[1..], name);
      assert forall i :: 0 < i < |macros| ==> macros[1..][i - 1] == macros[i];
      if r.None? then None else Some(1 + r.value)
  }

  /** The number of positional actuals: the words before the first one holding `=`. */
  function PositionalCount(actuals: seq<string>): (n: nat)
    ensures n <= |actuals|
    ensures forall i :: 0 <= i < n ==> '=' !in actuals[i]
    ensures n < |actuals| ==> '=' in actuals[n]
  {
    if actuals == [] || '=' in actuals[0] then 0
    else
      var n := PositionalCount(actuals[1..]);
      assert forall i :: 0 < i < |actuals| ==> actuals[1..][i - 1] == actuals[i];
      1 + n
  }

  /** The bindings after the first `n` positional actuals: the `i`-th binds the `i`-th formal, if any. */
  function BindPositional(params: seq<string>, actuals: seq<string>, m: map<string, Option<string>>, n: nat)
    : map<string, Option<string>>
    requires n <= |actuals|
  {
    if n == 0 then m
    else
      var r := BindPositional(params, actuals, m, n - 1);
      if n - 1 < |params| then r[params[n - 1] := Some(actuals[n - 1])] else r
  }

  /** The bindings after the keyword actuals: `k=v` rebinds `k` only when `k` is a formal. */
  function BindKeywords(tokens: seq<string>, m: map<string, Option<string>>): map<string, Option<string>> {
    if tokens == [] then m
    else
      var r := BindKeywords(tokens[..|tokens| - 1], m);
      var split := SplitOnce(tokens[|tokens| - 1], '=');
      if split.Some? && split.value.0 in r then r[split.value.0 := Some(split.value.1)] else r
  }

  /** The parameters of an invocation: defaults, then positional actuals, then keyword actuals. */
  function Bind(meta: MacroMetadata, actuals: seq<string>): map<string, Option<string>> {
    var n := PositionalCount(actuals);
    BindKeywords(actuals[n..], BindPositional(meta.params, actuals, meta.paramWithValue, n))
  }

  // ---------------------------------------------------------------------
  // Substitution
  // ---------------------------------------------------------------------

  /**
   * The body substitution: for each parameter in `order` that has a value,
   * every `&p` in the line is replaced by the value, one parameter after
   * the other.
   */
  function Substitute(line: string, resolved: map<string, Option<string>>, order: seq<string>): string
    decreases |order|
  {
    if order == [] then line
    else
      var p := order[0];
      var next := if p in resolved && resolved[p].Some? then Replace(line, "&" + p, resolved[p].value) else line;
      Substitute(next, resolved, order[1..])
  }

  /** The elements of `s` in the order of their first occurrence, each once. */
  function Distinct(s: seq<string>): (r: seq<string>)
    ensures forall i, j :: 0 <= i < j < |r| ==> r[i] != r[j]
    ensures forall x :: x in r <==> x in s
  {
    if s == [] then []
    else
      var d := Distinct(s[..|s| - 1]);
      assert forall x :: x in s <==> x in s[..|s| - 1] || x == s[|s| - 1];
      if s[|s| - 1] in d then d else d + [s[|s| - 1]]
  }

  /**
   * `expand_macro`: every body line with the parameters substituted. The
   * program visits the parameters in the iteration order of a `HashMap`,
   * which is unspecified; here they are visited in the order declared.
   */
  function Expansion(meta: MacroMetadata, actuals: seq<string>): (r: seq<string>)
    ensures |r| == |meta.body|
  {
    var resolved := Bind(meta, actuals);
    var order := Distinct(meta.params);
    seq(|meta.body|, i requires 0 <= i < |meta.body| => Substitute(meta.body[i], resolved, order))
  }

  // ---------------------------------------------------------------------
  // The whole text
  // ---------------------------------------------------------------------

  /** `out` written before what `r` writes. */
  function Prepend(out: seq<string>, r: Option<Outcome>): (p: Option<Outcome>)
    ensures p.Some? <==> r.Some?
  {
    if r.None? then None else Some(Outcome(r.value.macros, out + r.value.output))
  }

  /** What `macro_process` does with a line. */
  datatype LineKind =
    | Opens                                      // the first word is `MACRO`
    | Invokes(index: nat, actuals: seq<string>)  // the first word names a macro
    | Plain(text: string)                        // anything else, written out trimmed

  /** How `macro_process` reads a line: by its first word, after trimming. */
  function Classify(macros: seq<MacroMetadata>, line: string): (k: LineKind)
    ensures k.Invokes? ==> k.index < |macros|
  {
    var trimmed := Trim(line);
    var tokens := SplitWhitespace(trimmed);
    if tokens != [] && tokens[0] == "MACRO" then Opens
    else
      var found := if tokens == [] then None else FindMacro(macros, tokens[0]);
      if found.Some? then Invokes(found.value, tokens[1..]) else Plain(trimmed)
  }

  /**
   * `macro_process`: the macros defined and the lines written after the
   * whole text, or `None` when a definition has no header.
   */
  function Processed(macros: seq<MacroMetadata>, lines: seq<string>): Option<Outcome>
    decreases |lines|
  {
    if lines == [] then Some(Outcome(macros, []))
    else
      match Classify(macros, lines[0])
      case Opens =>
        var parsed := Definition(lines[1..]);
        if parsed.None? then None
        else Processed(macros + [parsed.value.0], lines[1 + parsed.value.1..])
      case Invokes(index, actuals) =>
        Prepend(Expansion(macros[index], actuals), Processed(macros, lines[1..]))
      case Plain(text) =>
        Prepend([text], Processed(macros, lines[1..]))
  }
}

/**
 * The macro processor as the program runs it: an object holding the macros
 * defined so far, reading a source text line by line. Each method is
 * proved against the functions of `MacroSpec`.
 */
module MacroProcessing {
  import opened Wrappers
  import opened Strings
  import opened MacroSpec

  /** The tail of `lines` from `i` is line `i` followed by the tail from `i + 1`. */
  lemma Tail(lines: seq<string>, i: nat)
    requires i < |lines|
    ensures lines[i..] != [] && lines[i..][0] == lines[i] && lines[i..][1..] == lines[i + 1..]
  {
  }

  /** A `MACRO` line at `i`: the definition after it is appended, and nothing is written. */
  lemma ProcessedOpens(macros: seq<MacroMetadata>, lines: seq<string>, i: nat, meta: MacroMetadata, next: nat)
    requires i < next <= |lines| && Classify(macros, lines[i]) == Opens
    requires Definition(lines[i + 1..]) == Some((meta, next - i - 1))
    ensures Processed(macros, lines[i..]) == Processed(macros + [meta], lines[next..])
  {
    Tail(lines, i);
    assert lines[i..][1 + (next - i - 1)..] == lines[next..];
  }

  /** Any other line at `i` writes `out` before what the lines after it write. */
  lemma ProcessedWrites(macros: seq<MacroMetadata>, lines: seq<string>, i: nat, out: seq<string>)
    requires i < |lines|
    requires var k := Classify(macros, lines[i]);
      && !k.Opens?
      && (k.Invokes? ==> out == Expansion(macros[k.index], k.actuals))
      && (k.Plain? ==> out == [k.text])
    ensures Processed(macros, lines[i..]) == Prepend(out, Processed(macros, lines[i + 1..]))
  {
    Tail(lines, i);
  }

  /** The declarations of the header words `1..j+1`: those of `1..j`, then word `j`'s. */
  lemma DeclarationsStep(tokens: seq<string>, j: nat)
    requires 1 <= j < |tokens|
    ensures var ds := Declarations(tokens[1..j + 1]);
      ds != [] && ds[..|ds| - 1] == Declarations(tokens[1..j]) && ds[|ds| - 1] == HeaderParam(tokens[j])
  {
    var w := tokens[1..j + 1];
    assert w[..|w| - 1] == tokens[1..j] && w[|w| - 1] == tokens[j];
    var front := Declarations(tokens[1..j]);
    assert (front + [HeaderParam(tokens[j])])[..|front|] == front;
  }

  /** A header word declaring `name` with default `d` appends it to the formals. */
  lemma DeclaredAppends(tokens: seq<string>, j: nat, name: string, d: Option<string>)
    requires 1 <= j < |tokens| && HeaderParam(tokens[j]) == Some((name, d))
    ensures var f := Declared(tokens[1..j]);
      Declared(tokens[1..j + 1]) == Formals(f.params + [name], f.defaults[name := d])
  {
    DeclarationsStep(tokens, j);
  }

  /** A header word declaring nothing leaves the formals as they are. */
  lemma DeclaredSkips(tokens: seq<string>, j: nat)
    requires 1 <= j < |tokens| && HeaderParam(tokens[j]).None?
    ensures Declared(tokens[1..j + 1]) == Declared(tokens[1..j])
  {
    DeclarationsStep(tokens, j);
  }

  /** One more keyword actual: `BindKeywords` on the actuals `i..j+1`. */
  lemma KeywordStep(tokens: seq<string>, i: nat, j: nat, m: map<string, Option<string>>)
    requires i <= j < |tokens|
    ensures var r := BindKeywords(tokens[i..j], m);
      var split := SplitOnce(tokens[j], '=');
      BindKeywords(tokens[i..j + 1], m)
        == if split.Some? && split.value.0 in r then r[split.value.0 := Some(split.value.1)] else r
  {
    var w := tokens[i..j + 1];
    assert w[..|w| - 1] == tokens[i..j] && w[|w| - 1] == tokens[j];
  }

  /** One more body line: `BodyLines` and `BodyConsumed` from line `k`. */
  lemma BodyStep(lines: seq<string>, k: nat)
    requires k < |lines|
    ensures BodyLines(lines[k..]) == if IsMacroEnd(lines[k]) then [] else [Trim(lines[k])] + BodyLines(lines[k + 1..])
    ensures BodyConsumed(lines[k..]) == if IsMacroEnd(lines[k]) then 1 else 1 + BodyConsumed(lines[k + 1..])
  {
    Tail(lines, k);
  }

  /** Writing `a` and then `b` before an outcome is writing `a + b`. */
  lemma PrependTwice(a: seq<string>, b: seq<string>, r: Option<Outcome>)
    ensures Prepend(a, Prepend(b, r)) == Prepend(a + b, r)
  {
    if r.Some? {
      assert a + (b + r.value.output) == (a + b) + r.value.output;
    }
  }

  /** The program's `MacroProcessor`: the macros defined so far. */
  class MacroProcessor {
    var macros: seq<MacroMetadata>

    /** `MacroProcessor::new`: no macro defined yet. */
    constructor()
      ensures macros == []
    {
      macros := [];
    }

    /**
     * `macro_process`: reads the source text line after line, appends the
     * definitions it meets and returns the lines written out. A definition
     * without a header line makes the program panic, so the text must not
     * hold one.
     */
    method MacroProcess(sourceLines: seq<string>) returns (expanded: seq<string>)
      requires Processed(macros, sourceLines).Some?
      modifies this
      ensures Processed(old(macros), sourceLines) == Some(Outcome(macros, expanded))
    {
      expanded := [];
      var i := 0;
      assert sourceLines[i..] == sourceLines;
      assert [] + Processed(macros, sourceLines).value.output == Processed(macros, sourceLines).value.output;
      while i < |sourceLines|
        invariant 0 <= i <= |sourceLines|
        invariant Processed(old(macros), sourceLines) == Prepend(expanded, Processed(macros, sourceLines[i..]))
        decreases |sourceLines| - i
      {
        var line := sourceLines[i];
        var trimmedLine := Trim(line);
        var tokens := SplitWhitespace(trimmedLine);
        if tokens != [] && tokens[0] == "MACRO" {
          assert Classify(macros, line) == Opens;
          var macroMetadata, next := ParseMacro(sourceLines, i + 1);
          ProcessedOpens(macros, sourceLines, i, macroMetadata, next);
          macros := macros + [macroMetadata];
          i := next;
        } else {
          var found := if tokens == [] then None else FindMacro(macros, tokens[0]);
          if found.Some? {
            assert Classify(macros, line) == Invokes(found.value, tokens[1..]);
            var lines := ExpandMacro(macros[found.value], tokens[1..]);
            ProcessedWrites(macros, sourceLines, i, lines);
            PrependTwice(expanded, lines, Processed(macros, sourceLines[i + 1..]));
            expanded := expanded + lines;
          } else {
            assert Classify(macros, line) == Plain(trimmedLine);
            ProcessedWrites(macros, sourceLines, i, [trimmedLine]);
            PrependTwice(expanded, [trimmedLine], Processed(macros, sourceLines[i + 1..]));
            expanded := expanded + [trimmedLine];
          }
          i := i + 1;
        }
      }
      assert sourceLines[i..] == [];
      assert expanded + [] == expanded;
    }

    /** The formal parameters the words after the macro's name declare. */
    method ParseHeader(tokens: seq<string>) returns (params: seq<string>, paramWithValue: map<string, Option<string>>)
      requires tokens != []
      ensures Declared(tokens[1..]) == Formals(params, paramWithValue)
    {
      params, paramWithValue := [], map[];
      var j := 1;
      while j < |tokens|
        invariant 1 <= j <= |tokens|
        invariant Declared(tokens[1..j]) == Formals(params, paramWithValue)
      {
        var param := tokens[j];
        var split := SplitOnce(param, '=');
        if split.Some? {
          var key := split.value.0;
          if StartsWith(key, "&") {
            var paramName := TrimStartMatches(key, '&');
            DeclaredAppends(tokens, j, paramName, Some(split.value.1));
            paramWithValue := paramWithValue[paramName := Some(split.value.1)];
            params := params + [paramName];
          } else {
            DeclaredSkips(tokens, j);
          }
        } else if StartsWith(param, "&") {
          var paramName := TrimStartMatches(param, '&');
          DeclaredAppends(tokens, j, paramName, None);
          paramWithValue := paramWithValue[paramName := None];
          params := params + [paramName];
        } else {
          DeclaredSkips(tokens, j);
        }
        j := j + 1;
      }
      assert tokens[1..j] == tokens[1..];
    }

    /**
     * `parse_macro`: the definition whose header is line `start`, and the
     * index of the first line after its `MACROEND` (or of the end). The
     * program panics when there is no header line or it is blank.
     */
    method ParseMacro(lines: seq<string>, start: nat) returns (macroMetadata: MacroMetadata, next: nat)
      requires start < |lines| && SplitWhitespace(lines[start]) != []
      ensures start < next <= |lines|
      ensures Definition(lines[start..]) == Some((macroMetadata, next - start))
    {
      var tokens := SplitWhitespace(lines[start]);
      var name := tokens[0];
      var params, paramWithValue := ParseHeader(tokens);

      var rest := lines[start + 1..];
      var body, k := ReadBody(lines, start + 1);
      macroMetadata := MacroMetadata(name, params, paramWithValue, body);
      next := k;
      Tail(lines, start);
    }

    /**
     * The body of a definition from line `from`: the lines trimmed up to the
     * first `MACROEND`, and the index of the line after it (or of the end).
     */
    method ReadBody(lines: seq<string>, from: nat) returns (body: seq<string>, next: nat)
      requires from <= |lines|
      ensures from <= next <= |lines|
      ensures BodyLines(lines[from..]) == body && BodyConsumed(lines[from..]) == next - from
    {
      body := [];
      ghost var rest := lines[from..];
      next := from;
      while next < |lines|
        invariant from <= next <= |lines|
        invariant BodyLines(rest) == body + BodyLines(lines[next..])
        invariant BodyConsumed(rest) == next - from + BodyConsumed(lines[next..])
      {
        var trimmedLine := Trim(lines[next]);
        BodyStep(lines, next);
        next := next + 1;
        if trimmedLine == "MACROEND" {
          return;
        }
        var after := BodyLines(lines[next..]);
        assert body + [trimmedLine] + after == body + ([trimmedLine] + after);
        body := body + [trimmedLine];
      }
      assert lines[next..] == [];
    }

    /**
     * `expand_macro`: the body of the macro with its parameters bound to
     * the actuals, positional ones first and keyword ones `k=v` after.
     */
    method ExpandMacro(macroMetadata: MacroMetadata, tokens: seq<string>) returns (lines: seq<string>)
      ensures lines == Expansion(macroMetadata, tokens)
    {
      var resolvedParams := ResolveParams(macroMetadata, tokens);
      var order := Distinct(macroMetadata.params);
      lines := [];
      var b := 0;
      while b < |macroMetadata.body|
        invariant 0 <= b <= |macroMetadata.body|
        invariant |lines| == b
        invariant forall k :: 0 <= k < b ==> lines[k] == Substitute(macroMetadata.body[k], resolvedParams, order)
      {
        var expandedLine := ExpandLine(macroMetadata.body[b], resolvedParams, order);
        lines := lines + [expandedLine];
        b := b + 1;
      }
    }

    /** The parameters of an invocation: the defaults, rebound by the positional and then the keyword actuals. */
    method ResolveParams(macroMetadata: MacroMetadata, tokens: seq<string>) returns (resolvedParams: map<string, Option<string>>)
      ensures resolvedParams == Bind(macroMetadata, tokens)
    {
      var positional, i := BindPositionals(macroMetadata, tokens);
      resolvedParams := positional;

      var j := i;
      while j < |tokens|
        invariant i <= j <= |tokens|
        invariant resolvedParams == BindKeywords(tokens[i..j], positional)
      {
        KeywordStep(tokens, i, j, positional);
        var split := SplitOnce(tokens[j], '=');
        if split.Some? && split.value.0 in resolvedParams {
          resolvedParams := resolvedParams[split.value.0 := Some(split.value.1)];
        }
        j := j + 1;
      }
      assert tokens[i..j] == tokens[i..];
    }

    /** The defaults rebound by the positional actuals, and the number of those. */
    method BindPositionals(macroMetadata: MacroMetadata, tokens: seq<string>)
      returns (resolvedParams: map<string, Option<string>>, i: nat)
      ensures i == PositionalCount(tokens)
      ensures resolvedParams == BindPositional(macroMetadata.params, tokens, macroMetadata.paramWithValue, i)
    {
      resolvedParams := macroMetadata.paramWithValue;
      i := 0;
      while i < |tokens| && '=' !in tokens[i]
        invariant 0 <= i <= |tokens|
        invariant forall k :: 0 <= k < i ==> '=' !in tokens[k]
        invariant resolvedParams == BindPositional(macroMetadata.params, tokens, macroMetadata.paramWithValue, i)
      {
        if i < |macroMetadata.params| {
          resolvedParams := resolvedParams[macroMetadata.params[i] := Some(tokens[i])];
        }
        i := i + 1;
      }
    }

    /** One body line with every parameter that has a value substituted, in the given order. */
    method ExpandLine(line: string, resolvedParams: map<string, Option<string>>, order: seq<string>) returns (expandedLine: string)
      ensures expandedLine == Substitute(line, resolvedParams, order)
    {
      expandedLine := line;
      var o := 0;
      while o < |order|
        invariant 0 <= o <= |order|
        invariant Substitute(expandedLine, resolvedParams, order[o..]) == Substitute(line, resolvedParams, order)
      {
        var p := order[o];
        if p in resolvedParams && resolvedParams[p].Some? {
          expandedLine := Replace(expandedLine, "&" + p, resolvedParams[p].value);
        }
        assert order[o..][1..] == order[o + 1..];
        o := o + 1;
      }
      assert order[o..] == [];
    }
  }
}

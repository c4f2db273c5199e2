/**
 * Properties of the macro pre-processor: what the header declares, how
 * actuals bind, what substitution does and when the order in which the
 * parameters are visited does not matter, and what a whole text turns into.
 */
module MacroProps {
  import opened Wrappers
  import opened Strings
  import opened MacroSpec

  // ---------------------------------------------------------------------
  // Substitution in a reference form
  // ---------------------------------------------------------------------

  /** No name holds `&`, and no name is a prefix of a different one. */
  predicate NamesWellFormed(names: seq<string>) {
    && (forall i :: 0 <= i < |names| ==> '&' !in names[i])
    && (forall i, j :: 0 <= i < |names| && 0 <= j < |names| && names[i] != names[j] ==>
          !StartsWith(names[j], names[i]))
  }

  /** No bound value holds `&`. */
  predicate ValuesWellFormed(resolved: map<string, Option<string>>) {
    forall p :: p in resolved && resolved[p].Some? ==> '&' !in resolved[p].value
  }

  /** The first name that `t` starts with. */
  function KeyOf(t: string, names: seq<string>): (r: Option<string>)
    ensures r.Some? ==> r.value in names && StartsWith(t, r.value)
    ensures r.None? ==> forall i :: 0 <= i < |names| ==> !StartsWith(t, names[i])
  {
    if names == [] then None
    else if StartsWith(t, names[0]) then Some(names[0])
    else
      var r := KeyOf(t, names[1..]);
      assert forall i :: 0 < i < |names| ==> names[1..][i - 1] == names[i];
      r
  }

  /** Two prefixes of one string: the shorter is a prefix of the longer. */
  lemma CommonPrefixes(t: string, a: string, b: string)
    requires StartsWith(t, a) && StartsWith(t, b) && |a| <= |b|
    ensures StartsWith(b, a)
  {
    assert b[..|a|] == t[..|b|][..|a|];
  }

  /** Among prefix-free names, a name that starts with another is that name. */
  lemma PrefixOfName(names: seq<string>, a: string, b: string)
    requires NamesWellFormed(names) && a in names && b in names && StartsWith(b, a)
    ensures a == b
  {
    var i :| 0 <= i < |names| && names[i] == a;
    var j :| 0 <= j < |names| && names[j] == b;
  }

  /** Among prefix-free names, two that one string starts with are the same. */
  lemma SamePrefixName(names: seq<string>, t: string, a: string, b: string)
    requires NamesWellFormed(names) && a in names && b in names && StartsWith(t, a) && StartsWith(t, b)
    ensures a == b
  {
    if |a| <= |b| {
      CommonPrefixes(t, a, b);
      PrefixOfName(names, a, b);
    }
    if |b| <= |a| {
      CommonPrefixes(t, b, a);
      PrefixOfName(names, b, a);
    }
  }

  /** Among prefix-free names, the one a string starts with is the only one. */
  lemma KeyOfUnique(t: string, names: seq<string>, p: string)
    requires NamesWellFormed(names) && p in names && StartsWith(t, p)
    ensures KeyOf(t, names) == Some(p)
  {
    SamePrefixName(names, t, KeyOf(t, names).value, p);
  }

  /**
   * A segment after an `&`, with the parameters in `done` substituted: when
   * it starts with the name of such a parameter that has a value, the name
   * and its `&` give way to the value.
   */
  function Piece(t: string, resolved: map<string, Option<string>>, names: seq<string>, done: set<string>): string {
    var k := KeyOf(t, names);
    if k.Some? && k.value in done && k.value in resolved && resolved[k.value].Some? then
      resolved[k.value].value + t[|k.value|..]
    else "&" + t
  }

  /** The segments after the `&`s, each in its form after `done`. */
  function Pieces(ts: seq<string>, resolved: map<string, Option<string>>, names: seq<string>, done: set<string>): string {
    if ts == [] then [] else Piece(ts[0], resolved, names, done) + Pieces(ts[1..], resolved, names, done)
  }

  /** A line with the parameters in `done` substituted. */
  function Partial(line: string, resolved: map<string, Option<string>>, names: seq<string>, done: set<string>): string {
    var segs := SplitOn(line, '&');
    segs[0] + Pieces(segs[1..], resolved, names, done)
  }

  /**
   * The reference substitution: every `&p` with `p` a formal that has a
   * value becomes the value, all at once, the rest of the line unchanged.
   */
  function Resolve(line: string, resolved: map<string, Option<string>>, names: seq<string>): string {
    Partial(line, resolved, names, resolved.Keys)
  }

  /** Every `&` of the line is followed by the name of a formal. */
  predicate WellFormedLine(line: string, names: seq<string>) {
    var segs := SplitOn(line, '&');
    forall i :: 1 <= i < |segs| ==> KeyOf(segs[i], names).Some?
  }

  /** A text without the first character of `pat` leaves `Replace` to what follows it. */
  lemma {:induction false} ReplaceAfterFree(x: string, y: string, pat: string, v: string)
    requires |pat| > 0 && pat[0] !in x
    ensures Replace(x + y, pat, v) == x + Replace(y, pat, v)
    decreases |x|
  {
    if x != [] {
      var s := x + y;
      assert s[0] == x[0];
      assert s[1..] == x[1..] + y;
      ReplaceAfterFree(x[1..], y, pat, v);
      if |s| < |pat| {
        assert Replace(y, pat, v) == y;
      } else {
        assert s[..|pat|][0] == x[0];
        assert Replace(s, pat, v) == [x[0]] + Replace(s[1..], pat, v);
      }
    } else {
      assert x + y == y;
    }
  }

  /** No segment and no value holds `&`, and every segment starts with a name. */
  predicate Segments(ts: seq<string>, resolved: map<string, Option<string>>, names: seq<string>) {
    && NamesWellFormed(names)
    && ValuesWellFormed(resolved)
    && forall i :: 0 <= i < |ts| ==> '&' !in ts[i] && KeyOf(ts[i], names).Some?
  }

  /** An already substituted piece holds no `&`. */
  lemma ResolvedPieceFree(t: string, resolved: map<string, Option<string>>, names: seq<string>, done: set<string>)
    requires ValuesWellFormed(resolved) && '&' !in t
    requires Piece(t, resolved, names, done) != "&" + t
    ensures '&' !in Piece(t, resolved, names, done)
  {
    var k := KeyOf(t, names).value;
    var v := resolved[k].value;
    assert Piece(t, resolved, names, done) == v + t[|k|..];
    assert forall c :: c in t[|k|..] ==> c in t;
  }

  /** A segment that starts an occurrence of `&p` is one whose name is `p`. */
  lemma MatchMeansName(t: string, rest: string, names: seq<string>, p: string)
    requires NamesWellFormed(names) && p in names && KeyOf(t, names).Some?
    ensures StartsWith("&" + t + rest, "&" + p) ==> KeyOf(t, names).value == p
  {
    var k := KeyOf(t, names).value;
    var s := "&" + t + rest;
    if StartsWith(s, "&" + p) {
      assert (t + rest)[..|p|] == s[..|p| + 1][1..];
      assert (t + rest)[..|k|] == t[..|k|];
      SamePrefixName(names, t + rest, k, p);
    }
  }

  /** An already substituted piece holds no `&`, so `Replace` passes over it. */
  lemma ReplaceResolvedPiece(t: string, rest: string, resolved: map<string, Option<string>>, names: seq<string>,
                             done: set<string>, p: string)
    requires ValuesWellFormed(resolved) && '&' !in t && p !in done && p in resolved && resolved[p].Some?
    requires Piece(t, resolved, names, done) != "&" + t
    ensures Replace(Piece(t, resolved, names, done) + rest, "&" + p, resolved[p].value)
         == Piece(t, resolved, names, done + {p}) + Replace(rest, "&" + p, resolved[p].value)
  {
    ResolvedPieceFree(t, resolved, names, done);
    ReplaceAfterFree(Piece(t, resolved, names, done), rest, "&" + p, resolved[p].value);
  }

  /** A segment named `p`: its `&p` gives way to the value. */
  lemma ReplaceNamedPiece(t: string, rest: string, resolved: map<string, Option<string>>, names: seq<string>,
                          done: set<string>, p: string)
    requires '&' !in t && p in resolved && resolved[p].Some?
    requires KeyOf(t, names) == Some(p)
    ensures Replace("&" + t + rest, "&" + p, resolved[p].value)
         == Piece(t, resolved, names, done + {p}) + Replace(rest, "&" + p, resolved[p].value)
  {
    var v := resolved[p].value;
    var s := "&" + t + rest;
    assert s[..|p| + 1] == "&" + t[..|p|];
    assert s[|p| + 1..] == t[|p|..] + rest;
    assert forall c :: c in t[|p|..] ==> c in t;
    ReplaceAfterFree(t[|p|..], rest, "&" + p, v);
    assert Replace(s, "&" + p, v) == v + Replace(s[|p| + 1..], "&" + p, v);
  }

  /** `Replace` passes over an `&` that does not start an occurrence, and over a text without `&`. */
  lemma ReplaceSkipsAmp(t: string, rest: string, pat: string, v: string)
    requires |pat| > 0 && pat[0] == '&' && '&' !in t
    requires !StartsWith("&" + t + rest, pat)
    ensures Replace("&" + t + rest, pat, v) == "&" + t + Replace(rest, pat, v)
  {
    var s := "&" + t + rest;
    assert s[1..] == t + rest;
    ReplaceAfterFree(t, rest, pat, v);
    assert Replace(s, pat, v) == [s[0]] + Replace(s[1..], pat, v);
  }

  /** A piece is the same after `done` and after `done + {p}` when its name is not `p`. */
  lemma PieceOfOtherName(t: string, resolved: map<string, Option<string>>, names: seq<string>,
                         done: set<string>, p: string)
    requires KeyOf(t, names).Some? && KeyOf(t, names).value != p
    ensures Piece(t, resolved, names, done + {p}) == Piece(t, resolved, names, done)
  {
  }

  /** A segment with another name keeps its `&`, and `Replace` passes over it. */
  lemma ReplaceOtherPiece(t: string, rest: string, resolved: map<string, Option<string>>, names: seq<string>,
                          done: set<string>, p: string)
    requires NamesWellFormed(names) && p in names && '&' !in t && p in resolved && resolved[p].Some?
    requires KeyOf(t, names).Some? && KeyOf(t, names).value != p
    requires Piece(t, resolved, names, done) == "&" + t
    ensures Replace("&" + t + rest, "&" + p, resolved[p].value)
         == Piece(t, resolved, names, done + {p}) + Replace(rest, "&" + p, resolved[p].value)
  {
    MatchMeansName(t, rest, names, p);
    ReplaceSkipsAmp(t, rest, "&" + p, resolved[p].value);
    PieceOfOtherName(t, resolved, names, done, p);
  }

  /** Replacing `&p` in the substituted segments: the matches are the segments named `p`. */
  lemma {:induction false} ReplacePieces(ts: seq<string>, resolved: map<string, Option<string>>, names: seq<string>,
                                         done: set<string>, p: string)
    requires Segments(ts, resolved, names)
    requires p in names && p !in done && p in resolved && resolved[p].Some?
    ensures Replace(Pieces(ts, resolved, names, done), "&" + p, resolved[p].value)
         == Pieces(ts, resolved, names, done + {p})
    decreases |ts|
  {
    if ts != [] {
      var t := ts[0];
      var rest := Pieces(ts[1..], resolved, names, done);
      assert Segments(ts[1..], resolved, names) by {
        assert forall i :: 0 < i < |ts| ==> ts[1..][i - 1] == ts[i];
      }
      ReplacePieces(ts[1..], resolved, names, done, p);
      if Piece(t, resolved, names, done) != "&" + t {
        ReplaceResolvedPiece(t, rest, resolved, names, done, p);
      } else if KeyOf(t, names).value == p {
        ReplaceNamedPiece(t, rest, resolved, names, done, p);
      } else {
        ReplaceOtherPiece(t, rest, resolved, names, done, p);
      }
    }
  }

  /** A parameter without a value changes no piece. */
  lemma {:induction false} UnboundPieces(ts: seq<string>, resolved: map<string, Option<string>>, names: seq<string>,
                                         done: set<string>, p: string)
    requires !(p in resolved && resolved[p].Some?)
    ensures Pieces(ts, resolved, names, done + {p}) == Pieces(ts, resolved, names, done)
    decreases |ts|
  {
    if ts != [] {
      UnboundPieces(ts[1..], resolved, names, done, p);
    }
  }

  /** With nothing substituted, the pieces put the line back together. */
  lemma {:induction false} NothingSubstituted(segs: seq<string>, resolved: map<string, Option<string>>, names: seq<string>)
    requires |segs| > 0
    ensures segs[0] + Pieces(segs[1..], resolved, names, {}) == Join(segs, "&")
    decreases |segs|
  {
    if |segs| > 1 {
      NothingSubstituted(segs[1..], resolved, names);
      var tail := segs[1..];
      assert tail[1..] == segs[2..];
      assert Pieces(tail, resolved, names, {}) == "&" + tail[0] + Pieces(tail[1..], resolved, names, {});
    } else {
      assert segs[1..] == [];
    }
  }

  /** The substituted forms of a line: the segments of `SplitOn` satisfy `Segments` on a well-formed line. */
  lemma LineSegments(line: string, resolved: map<string, Option<string>>, names: seq<string>)
    requires NamesWellFormed(names) && ValuesWellFormed(resolved) && WellFormedLine(line, names)
    ensures var segs := SplitOn(line, '&'); Segments(segs[1..], resolved, names) && '&' !in segs[0]
  {
    var segs := SplitOn(line, '&');
    assert forall i :: 0 < i < |segs| ==> segs[1..][i - 1] == segs[i];
  }

  /** One more parameter substituted, from the partially substituted line. */
  lemma SubstituteStep(line: string, resolved: map<string, Option<string>>, names: seq<string>,
                       done: set<string>, p: string)
    requires NamesWellFormed(names) && ValuesWellFormed(resolved) && WellFormedLine(line, names)
    requires p in names && p !in done
    ensures var x := Partial(line, resolved, names, done);
      (if p in resolved && resolved[p].Some? then Replace(x, "&" + p, resolved[p].value) else x)
      == Partial(line, resolved, names, done + {p})
  {
    var segs := SplitOn(line, '&');
    LineSegments(line, resolved, names);
    if p in resolved && resolved[p].Some? {
      ReplacePieces(segs[1..], resolved, names, done, p);
      ReplaceAfterFree(segs[0], Pieces(segs[1..], resolved, names, done), "&" + p, resolved[p].value);
    } else {
      UnboundPieces(segs[1..], resolved, names, done, p);
    }
  }

  /** Substituting the parameters of `order`, one after the other, from a partial form. */
  lemma {:induction false} SubstituteFrom(line: string, resolved: map<string, Option<string>>, names: seq<string>,
                                          done: set<string>, order: seq<string>)
    requires NamesWellFormed(names) && ValuesWellFormed(resolved) && WellFormedLine(line, names)
    requires forall i :: 0 <= i < |order| ==> order[i] in names && order[i] !in done
    requires forall i, j :: 0 <= i < j < |order| ==> order[i] != order[j]
    ensures Substitute(Partial(line, resolved, names, done), resolved, order)
         == Partial(line, resolved, names, done + (set p | p in order))
    decreases |order|
  {
    if order == [] {
      assert done + (set p | p in order) == done;
    } else {
      var p := order[0];
      SubstituteStep(line, resolved, names, done, p);
      var rest := order[1..];
      assert forall i :: 0 < i < |order| ==> rest[i - 1] == order[i];
      SubstituteFrom(line, resolved, names, done + {p}, rest);
      assert done + {p} + (set q | q in rest) == done + (set q | q in order);
    }
  }

  /**
   * Substitution does not depend on the order in which the parameters are
   * visited, as long as every `&` of the line starts a reference to a
   * formal, no formal's name is a prefix of another's and no value holds
   * `&`: any order that visits each formal once gives the reference result.
   */
  lemma SubstitutionOrderFree(line: string, resolved: map<string, Option<string>>, names: seq<string>,
                              order: seq<string>)
    requires NamesWellFormed(names) && ValuesWellFormed(resolved) && WellFormedLine(line, names)
    requires resolved.Keys == set p | p in names
    requires (set p | p in order) == resolved.Keys
    requires forall i, j :: 0 <= i < j < |order| ==> order[i] != order[j]
    ensures Substitute(line, resolved, order) == Resolve(line, resolved, names)
  {
    var segs := SplitOn(line, '&');
    NothingSubstituted(segs, resolved, names);
    JoinSplitOn(line, '&');
    assert "&" == ['&'];
    assert Partial(line, resolved, names, {}) == line;
    assert forall i :: 0 <= i < |order| ==> order[i] in resolved.Keys;
    SubstituteFrom(line, resolved, names, {}, order);
    assert {} + (set p | p in order) == resolved.Keys;
  }

  /**
   * Without those conditions the order matters: with formals `A` and `AB`,
   * `&AB` becomes `xB` when `A` is visited first and `y` when `AB` is.
   */
  lemma OrderMatters()
    ensures var resolved := map["A" := Some("x"), "AB" := Some("y")];
      && Substitute("&AB", resolved, ["A", "AB"]) == "xB"
      && Substitute("&AB", resolved, ["AB", "A"]) == "y"
  {
    var resolved := map["A" := Some("x"), "AB" := Some("y")];
    assert Replace("B", "&A", "x") == "B";
    assert Replace("&AB", "&A", "x") == "x" + Replace("B", "&A", "x");
    assert Replace("xB", "&AB", "y") == "xB";
    assert ["A", "AB"][1..] == ["AB"];
    assert Replace([], "&AB", "y") == [];
    assert Replace("&AB", "&AB", "y") == "y" + Replace([], "&AB", "y");
    assert Replace("y", "&A", "x") == "y";
    assert ["AB", "A"][1..] == ["A"];
  }

  // ---------------------------------------------------------------------
  // The header
  // ---------------------------------------------------------------------

  /** Exactly the header words that begin with `&` declare a formal; the others are ignored. */
  lemma HeaderParamDeclares(token: string)
    ensures HeaderParam(token).Some? <==> StartsWith(token, "&")
  {
    var split := SplitOnce(token, '=');
    if split.Some? {
      var key := split.value.0;
      assert key + ['='] + split.value.1 == token;
      if key != [] {
        assert token[0] == key[0];
      } else {
        assert token[0] == '=';
      }
    }
  }

  /** `&p` declares `p` without a default and `&p=v` declares it with default `v`. */
  lemma HeaderParamForms(p: string, v: string)
    requires '=' !in p && '&' !in p
    ensures HeaderParam("&" + p) == Some((p, None))
    ensures HeaderParam("&" + p + "=" + v) == Some((p, Some(v)))
  {
    var amp := "&" + p;
    assert amp[1..] == p;
    assert TrimStartMatches(amp, '&') == p;
    assert '=' !in amp;
    var t := amp + "=" + v;
    assert t[..|amp|] == amp && t[|amp|] == '=' && t[|amp| + 1..] == v;
    IndexOfAt(t, '=', |amp|);
  }

  /** The header word declares the formal `p`. */
  predicate Declares(token: string, p: string) {
    HeaderParam(token).Some? && HeaderParam(token).value.0 == p
  }

  /** The formals of some declarations: those of all but the last, then the last one's. */
  lemma CollectedLast(ds: seq<Declaration>)
    requires ds != []
    ensures var d := ds[|ds| - 1];
      Collect(ds).params == Collect(ds[..|ds| - 1]).params + (if d.Some? then [d.value.0] else [])
  {
  }

  /** A name some declaration declares is a formal. */
  lemma {:induction false} CollectedName(ds: seq<Declaration>, i: nat, p: string)
    requires i < |ds| && ds[i].Some? && ds[i].value.0 == p
    ensures p in Collect(ds).params
    decreases |ds|
  {
    var front := ds[..|ds| - 1];
    var f := Collect(front).params;
    CollectedLast(ds);
    if i < |front| {
      assert front[i] == ds[i];
      CollectedName(front, i, p);
      var k :| 0 <= k < |f| && f[k] == p;
      assert Collect(ds).params[k] == p;
    } else {
      assert Collect(ds).params[|f|] == p;
    }
  }

  /** A name no declaration declares is not a formal. */
  lemma {:induction false} UncollectedName(ds: seq<Declaration>, p: string)
    requires forall i :: 0 <= i < |ds| ==> ds[i].None? || ds[i].value.0 != p
    ensures p !in Collect(ds).params
    decreases |ds|
  {
    if ds != [] {
      var front := ds[..|ds| - 1];
      assert forall i :: 0 <= i < |front| ==> front[i] == ds[i];
      UncollectedName(front, p);
      CollectedLast(ds);
    }
  }

  /** One declaration per header word. */
  lemma {:induction false} DeclarationsLength(tokens: seq<string>)
    ensures |Declarations(tokens)| == |tokens|
    decreases |tokens|
  {
    if tokens != [] {
      DeclarationsLength(tokens[..|tokens| - 1]);
    }
  }

  /** The declaration of the `i`-th header word. */
  lemma {:induction false} DeclarationAt(tokens: seq<string>, i: nat)
    requires i < |tokens|
    ensures |Declarations(tokens)| == |tokens| && Declarations(tokens)[i] == HeaderParam(tokens[i])
    decreases |tokens|
  {
    var front := tokens[..|tokens| - 1];
    DeclarationsLength(front);
    if i < |front| {
      DeclarationAt(front, i);
      assert front[i] == tokens[i];
    }
  }

  /** The declaration of each header word. */
  lemma DeclarationsAt(tokens: seq<string>)
    ensures |Declarations(tokens)| == |tokens|
    ensures forall i :: 0 <= i < |tokens| ==> Declarations(tokens)[i] == HeaderParam(tokens[i])
  {
    DeclarationsLength(tokens);
    forall i | 0 <= i < |tokens| ensures Declarations(tokens)[i] == HeaderParam(tokens[i]) {
      DeclarationAt(tokens, i);
    }
  }

  /** A name is a formal exactly when some header word declares it. */
  lemma DeclaredNames(tokens: seq<string>, p: string)
    ensures p in Declared(tokens).params <==> exists i :: 0 <= i < |tokens| && Declares(tokens[i], p)
  {
    var ds := Declarations(tokens);
    DeclarationsAt(tokens);
    if exists i :: 0 <= i < |tokens| && Declares(tokens[i], p) {
      var i :| 0 <= i < |tokens| && Declares(tokens[i], p);
      assert ds[i] == HeaderParam(tokens[i]);
      CollectedName(ds, i, p);
    } else {
      assert forall i :: 0 <= i < |ds| ==> ds[i].None? || ds[i].value.0 != p by {
        forall i | 0 <= i < |ds|
          ensures ds[i].None? || ds[i].value.0 != p
        {
          assert ds[i] == HeaderParam(tokens[i]);
          assert !Declares(tokens[i], p);
        }
      }
      UncollectedName(ds, p);
    }
  }

  /** Every formal has a default entry, and only the formals have one. */
  lemma {:induction false} CollectedKeys(ds: seq<Declaration>)
    ensures var f := Collect(ds); |f.params| <= |ds| && f.defaults.Keys == set p | p in f.params
    decreases |ds|
  {
    if ds != [] {
      CollectedKeys(ds[..|ds| - 1]);
    }
  }

  /** The formals of a header are exactly the keys of its defaults. */
  lemma DeclaredKeys(tokens: seq<string>)
    ensures var f := Declared(tokens); |f.params| <= |tokens| && f.defaults.Keys == set p | p in f.params
  {
    DeclarationsAt(tokens);
    CollectedKeys(Declarations(tokens));
  }

  /** A formal's default is the one of the last declaration of it. */
  lemma {:induction false} CollectedDefault(ds: seq<Declaration>, i: nat, p: string, d: Option<string>)
    requires i < |ds| && ds[i] == Some((p, d))
    requires forall j :: i < j < |ds| ==> ds[j].None? || ds[j].value.0 != p
    ensures p in Collect(ds).defaults && Collect(ds).defaults[p] == d
    decreases |ds|
  {
    var front := ds[..|ds| - 1];
    if i < |ds| - 1 {
      assert forall j :: 0 <= j < |front| ==> front[j] == ds[j];
      CollectedDefault(front, i, p, d);
    }
  }

  /** A formal's default is the one of the last header word that declares it. */
  lemma DeclaredDefault(tokens: seq<string>, i: nat, p: string, d: Option<string>)
    requires i < |tokens| && HeaderParam(tokens[i]) == Some((p, d))
    requires forall j :: i < j < |tokens| ==> !Declares(tokens[j], p)
    ensures p in Declared(tokens).defaults && Declared(tokens).defaults[p] == d
  {
    var ds := Declarations(tokens);
    DeclarationsAt(tokens);
    assert forall j :: i < j < |ds| ==> ds[j].None? || ds[j].value.0 != p by {
      forall j | i < j < |ds|
        ensures ds[j].None? || ds[j].value.0 != p
      {
        assert ds[j] == HeaderParam(tokens[j]);
        assert !Declares(tokens[j], p);
      }
    }
    CollectedDefault(ds, i, p, d);
  }

  // ---------------------------------------------------------------------
  // Binding
  // ---------------------------------------------------------------------

  /**
   * Positional actuals bind the formals in order: the `i`-th of the first
   * `n` actuals is the value of the `i`-th formal, unless a later one of
   * those positions names the same formal (a formal declared twice takes
   * its later position's actual); actuals beyond the formals are ignored,
   * and every other binding is kept.
   */
  lemma {:induction false} PositionalBinding(params: seq<string>, actuals: seq<string>,
                                             m: map<string, Option<string>>, n: nat)
    requires n <= |actuals|
    requires forall i :: 0 <= i < |params| ==> params[i] in m
    ensures var r := BindPositional(params, actuals, m, n);
      && r.Keys == m.Keys
      && (forall i :: 0 <= i < n && i < |params| && (forall j :: i < j < n && j < |params| ==> params[j] != params[i])
            ==> r[params[i]] == Some(actuals[i]))
      && (forall k :: k in m && (forall i :: 0 <= i < n && i < |params| ==> params[i] != k) ==> r[k] == m[k])
    decreases n
  {
    if n > 0 {
      PositionalBinding(params, actuals, m, n - 1);
    }
  }

  /** The last keyword actual with key `k`, if any, gives `k`'s value. */
  function LastKeyword(tokens: seq<string>, k: string): Option<string> {
    if tokens == [] then None
    else
      var split := SplitOnce(tokens[|tokens| - 1], '=');
      if split.Some? && split.value.0 == k then Some(split.value.1) else LastKeyword(tokens[..|tokens| - 1], k)
  }

  /**
   * Keyword actuals: a formal `k` takes the value of the last `k=v`, if
   * any, and keeps its binding otherwise; keys that are not formals are
   * ignored.
   */
  lemma {:induction false} KeywordBinding(tokens: seq<string>, m: map<string, Option<string>>, k: string)
    ensures BindKeywords(tokens, m).Keys == m.Keys
    ensures k in m ==> BindKeywords(tokens, m)[k] == (if LastKeyword(tokens, k).Some? then LastKeyword(tokens, k) else m[k])
    decreases |tokens|
  {
    if tokens != [] {
      KeywordBinding(tokens[..|tokens| - 1], m, k);
    }
  }

  /** Binding keeps the formals: the keys of the defaults. */
  lemma BindKeys(meta: MacroMetadata, actuals: seq<string>)
    requires meta.paramWithValue.Keys == set p | p in meta.params
    ensures Bind(meta, actuals).Keys == meta.paramWithValue.Keys
  {
    var n := PositionalCount(actuals);
    var m := BindPositional(meta.params, actuals, meta.paramWithValue, n);
    PositionalKeys(meta.params, actuals, meta.paramWithValue, n);
    KeywordBinding(actuals[n..], m, "");
  }

  /** Positional binding keeps the keys when the formals are among them. */
  lemma {:induction false} PositionalKeys(params: seq<string>, actuals: seq<string>,
                                          m: map<string, Option<string>>, n: nat)
    requires n <= |actuals|
    requires forall i :: 0 <= i < |params| ==> params[i] in m
    ensures BindPositional(params, actuals, m, n).Keys == m.Keys
    decreases n
  {
    if n > 0 {
      PositionalKeys(params, actuals, m, n - 1);
    }
  }

  /**
   * On well-formed lines the expansion is the reference substitution, so
   * it does not depend on the order in which the formals are visited.
   */
  lemma ExpansionResolves(meta: MacroMetadata, actuals: seq<string>, i: nat)
    requires i < |meta.body|
    requires meta.paramWithValue.Keys == set p | p in meta.params
    requires NamesWellFormed(meta.params) && ValuesWellFormed(Bind(meta, actuals))
    requires WellFormedLine(meta.body[i], meta.params)
    ensures Expansion(meta, actuals)[i] == Resolve(meta.body[i], Bind(meta, actuals), meta.params)
  {
    var resolved := Bind(meta, actuals);
    BindKeys(meta, actuals);
    var order := Distinct(meta.params);
    assert (set p | p in order) == resolved.Keys;
    SubstitutionOrderFree(meta.body[i], resolved, meta.params, order);
  }

  // ---------------------------------------------------------------------
  // The whole text
  // ---------------------------------------------------------------------

  /** A line that neither opens a definition nor invokes a macro. */
  predicate PlainLine(macros: seq<MacroMetadata>, line: string) {
    var tokens := SplitWhitespace(Trim(line));
    tokens == [] || (tokens[0] != "MACRO" && FindMacro(macros, tokens[0]).None?)
  }

  /** Plain lines, empty ones included, are written out trimmed and in order. */
  lemma {:induction false} PlainLinesPass(macros: seq<MacroMetadata>, lines: seq<string>)
    requires forall i :: 0 <= i < |lines| ==> PlainLine(macros, lines[i])
    ensures Processed(macros, lines) == Some(Outcome(macros, TrimAll(lines)))
    decreases |lines|
  {
    if lines != [] {
      assert forall i :: 0 < i < |lines| ==> lines[1..][i - 1] == lines[i];
      PlainLinesPass(macros, lines[1..]);
      assert PlainLine(macros, lines[0]);
    }
  }

  /** A body closed by `MACROEND`: its lines trimmed, and the `MACROEND` consumed. */
  lemma {:induction false} BodyUpToEnd(body: seq<string>, rest: seq<string>)
    requires forall i :: 0 <= i < |body| ==> !IsMacroEnd(body[i])
    ensures BodyLines(body + ["MACROEND"] + rest) == TrimAll(body)
    ensures BodyConsumed(body + ["MACROEND"] + rest) == |body| + 1
    decreases |body|
  {
    var lines := body + ["MACROEND"] + rest;
    if body == [] {
      assert lines[0] == "MACROEND";
      assert Trim("MACROEND") == "MACROEND" by {
        assert TrimEnd("MACROEND") == "MACROEND";
        assert LeadingWhitespace("MACROEND") == 0;
      }
    } else {
      assert lines[0] == body[0];
      assert lines[1..] == body[1..] + ["MACROEND"] + rest;
      assert forall i :: 0 < i < |body| ==> body[1..][i - 1] == body[i];
      BodyUpToEnd(body[1..], rest);
    }
  }

  /** The `MACRO` line opens a definition. */
  lemma MacroLine(macros: seq<MacroMetadata>)
    ensures Classify(macros, "MACRO") == Opens
  {
    assert TrimEnd("MACRO") == "MACRO";
    assert LeadingWhitespace("MACRO") == 0;
    assert "MACRO" + [] == "MACRO";
    SplitAfterToken("MACRO", []);
  }

  /** The definition read from a header, a body and its `MACROEND`. */
  lemma DefinitionOf(header: string, body: seq<string>, rest: seq<string>)
    requires SplitWhitespace(header) != []
    requires forall i :: 0 <= i < |body| ==> !IsMacroEnd(body[i])
    ensures var tokens := SplitWhitespace(header);
      var formals := Declared(tokens[1..]);
      Definition([header] + body + ["MACROEND"] + rest)
        == Some((MacroMetadata(tokens[0], formals.params, formals.defaults, TrimAll(body)), |body| + 2))
  {
    DefinitionShape(header, body, rest);
    BodyUpToEnd(body, rest);
  }

  /** How a definition splits into its header and the lines after it. */
  lemma DefinitionShape(header: string, body: seq<string>, rest: seq<string>)
    ensures var lines := [header] + body + ["MACROEND"] + rest;
      lines != [] && lines[0] == header && lines[1..] == body + ["MACROEND"] + rest
  {
    var lines := [header] + body + ["MACROEND"] + rest;
    assert lines == [header] + (body + ["MACROEND"] + rest);
  }

  /** A line whose first word is `MACRO` appends the definition that follows and writes nothing. */
  lemma OpensDefinition(macros: seq<MacroMetadata>, lines: seq<string>, meta: MacroMetadata, n: nat)
    requires lines != [] && Classify(macros, lines[0]) == Opens
    requires Definition(lines[1..]) == Some((meta, n))
    ensures 1 + n <= |lines| && Processed(macros, lines) == Processed(macros + [meta], lines[1 + n..])
  {
  }

  /**
   * A definition block writes nothing: the `MACRO` line, the header, the
   * body and `MACROEND` only append the definition, named by the first
   * word of the header, with the body lines trimmed.
   */
  lemma DefinitionBlock(macros: seq<MacroMetadata>, header: string, body: seq<string>, rest: seq<string>)
    requires SplitWhitespace(header) != []
    requires forall i :: 0 <= i < |body| ==> !IsMacroEnd(body[i])
    ensures var tokens := SplitWhitespace(header);
      var formals := Declared(tokens[1..]);
      Processed(macros, ["MACRO", header] + body + ["MACROEND"] + rest)
        == Processed(macros + [MacroMetadata(tokens[0], formals.params, formals.defaults, TrimAll(body))], rest)
  {
    var tokens := SplitWhitespace(header);
    var formals := Declared(tokens[1..]);
    var meta := MacroMetadata(tokens[0], formals.params, formals.defaults, TrimAll(body));
    var lines := ["MACRO", header] + body + ["MACROEND"] + rest;
    BlockShape(header, body, rest);
    MacroLine(macros);
    DefinitionOf(header, body, rest);
    OpensDefinition(macros, lines, meta, |body| + 2);
  }

  /** How a definition block splits into the `MACRO` line, the definition and the rest. */
  lemma BlockShape(header: string, body: seq<string>, rest: seq<string>)
    ensures var lines := ["MACRO", header] + body + ["MACROEND"] + rest;
      && lines != [] && lines[0] == "MACRO"
      && lines[1..] == [header] + body + ["MACROEND"] + rest
      && |body| + 3 <= |lines| && lines[|body| + 3..] == rest
  {
    var lines := ["MACRO", header] + body + ["MACROEND"] + rest;
    assert lines == ["MACRO"] + ([header] + body + ["MACROEND"] + rest);
  }
}

/** `replaceVariables` of services/emailSender.js: every key of the variable
    object, in key order, has its placeholder `{{key}}` replaced by a global,
    literal regular-expression replace. Each replace runs over the output of
    the previous one, so text substituted for an earlier key is scanned again
    for the later keys. */
module TemplateRender {
  import opened Js

  /** A variable value as `variables[key] || ''` sees it: a string, or a
      non-string falsy value (null, undefined, 0, false). A truthy non-string
      value is represented by the string it converts to. */
  datatype Value = Text(s: string) | Falsy

  /** A JavaScript object of variables: its keys in `Object.keys` order. */
  type Vars = seq<(string, Value)>

  /** The text `variables[key] || ''` puts in place of the placeholder. */
  function ReplacementText(v: Value): string {
    match v
    case Text(s) => s
    case Falsy => ""
  }

  function Placeholder(key: string): (p: string)
    ensures |p| == |key| + 4 && p[0] == '{' && p[1] == '{'
  {
    "{{" + key + "}}"
  }

  /** `pat` occurs in `s` at position `i`. */
  predicate OccursAt(s: string, pat: string, i: nat) {
    i + |pat| <= |s| && s[i..i + |pat|] == pat
  }

  /** `s.replace(new RegExp(pat, 'g'), rep)` for a pattern that matches only
      itself: scan left to right, replace each match, resume after it. */
  function ReplaceAll(s: string, pat: string, rep: string): string
    requires |pat| > 0
    decreases |s|
  {
    if |s| < |pat| then s
    else if s[..|pat|] == pat then rep + ReplaceAll(s[|pat|..], pat, rep)
    else [s[0]] + ReplaceAll(s[1..], pat, rep)
  }

  /** The result of `replaceVariables(content, variables)`. */
  function Render(content: string, vars: Vars): string
    decreases |vars|
  {
    if vars == [] then content
    else Render(ReplaceAll(content, Placeholder(vars[0].0), ReplacementText(vars[0].1)), vars[1..])
  }

  /** `replaceVariables` as written: `result` is reassigned once per key. */
  method ReplaceVariables(content: string, variables: Vars) returns (result: string)
    ensures result == Render(content, variables)
  {
    result := content;
    var i := 0;
    while i < |variables|
      invariant 0 <= i <= |variables|
      invariant Render(result, variables[i..]) == Render(content, variables)
    {
      var (key, value) := variables[i];
      assert variables[i..][1..] == variables[i + 1..];
      result := ReplaceAll(result, Placeholder(key), ReplacementText(value));
      i := i + 1;
    }
  }

  lemma OccursShift(s: string, pat: string, i: nat)
    requires |s| > 0
    ensures OccursAt(s[1..], pat, i) == OccursAt(s, pat, i + 1)
  {
    if i + 1 + |pat| <= |s| {
      assert s[1..][i..i + |pat|] == s[i + 1..i + 1 + |pat|];
    }
  }

  /** A prefix `x` in which `pat` starts nowhere is copied unchanged. */
  lemma {:induction false} ReplaceSkipsPrefix(x: string, y: string, pat: string, rep: string)
    requires |pat| > 0
    requires forall i :: 0 <= i < |x| ==> !OccursAt(x + y, pat, i)
    ensures ReplaceAll(x + y, pat, rep) == x + ReplaceAll(y, pat, rep)
    decreases |x|
  {
    if x == [] {
      assert x + y == y;
    } else {
      var s := x + y;
      assert !OccursAt(s, pat, 0);
      if |s| < |pat| {
        assert ReplaceAll(y, pat, rep) == y;
      } else {
        assert s[..|pat|] != pat;
        assert s[1..] == x[1..] + y;
        forall i | 0 <= i < |x[1..]| ensures !OccursAt(x[1..] + y, pat, i) {
          assert !OccursAt(s, pat, i + 1);
          OccursShift(s, pat, i);
        }
        ReplaceSkipsPrefix(x[1..], y, pat, rep);
        assert ReplaceAll(s, pat, rep) == [s[0]] + ReplaceAll(s[1..], pat, rep);
        assert ReplaceAll(s[1..], pat, rep) == x[1..] + ReplaceAll(y, pat, rep);
        assert s[0] == x[0];
        assert [x[0]] + (x[1..] + ReplaceAll(y, pat, rep)) == x + ReplaceAll(y, pat, rep);
      }
    }
  }

  /** Where `pat` occurs nowhere, the replace changes nothing. */
  lemma ReplaceWithoutMatch(s: string, pat: string, rep: string)
    requires |pat| > 0
    requires forall i :: 0 <= i < |s| ==> !OccursAt(s, pat, i)
    ensures ReplaceAll(s, pat, rep) == s
  {
    assert s + [] == s;
    ReplaceSkipsPrefix(s, [], pat, rep);
  }

  /** Content in which no key's placeholder occurs, at any stage, comes back
      unchanged. */
  lemma {:induction false} RenderWithoutPlaceholders(content: string, vars: Vars)
    requires forall k, i :: 0 <= k < |vars| && 0 <= i < |content| ==> !OccursAt(content, Placeholder(vars[k].0), i)
    ensures Render(content, vars) == content
    decreases |vars|
  {
    if vars != [] {
      ReplaceWithoutMatch(content, Placeholder(vars[0].0), ReplacementText(vars[0].1));
      forall k, i | 0 <= k < |vars[1..]| && 0 <= i < |content|
        ensures !OccursAt(content, Placeholder(vars[1..][k].0), i)
      {
        assert vars[1..][k] == vars[k + 1];
      }
      RenderWithoutPlaceholders(content, vars[1..]);
    }
  }

  // ---------------------------------------------------------------------
  // Templates as literal text and placeholders

  /** A template seen as a sequence of literal text and placeholders. */
  datatype Piece = Lit(text: string) | Hole(name: string)

  function PieceText(p: Piece): string {
    match p
    case Lit(t) => t
    case Hole(n) => Placeholder(n)
  }

  /** The template text the pieces spell. */
  function Compose(ps: seq<Piece>): string {
    if ps == [] then "" else PieceText(ps[0]) + Compose(ps[1..])
  }

  predicate BraceFree(s: string) {
    '{' !in s && '}' !in s
  }

  /** Literal text holds no `{` and placeholder names hold no brace, so the
      only places a placeholder can start are the holes. */
  predicate WellFormed(ps: seq<Piece>) {
    forall i :: 0 <= i < |ps| ==>
      match ps[i]
      case Lit(t) => '{' !in t
      case Hole(n) => BraceFree(n)
  }

  /** The keys are plain names and no value brings a `{` of its own. */
  predicate PlainVars(vars: Vars) {
    forall k :: 0 <= k < |vars| ==> BraceFree(vars[k].0) && '{' !in ReplacementText(vars[k].1)
  }

  /** The first value bound to `name` (object keys are unique). */
  function Lookup(vars: Vars, name: string): Option<Value> {
    if vars == [] then None
    else if vars[0].0 == name then Some(vars[0].1)
    else Lookup(vars[1..], name)
  }

  function FillPiece(p: Piece, vars: Vars): Piece {
    match p
    case Lit(t) => p
    case Hole(n) =>
      match Lookup(vars, n)
      case Some(v) => Lit(ReplacementText(v))
      case None => p
  }

  /** Each placeholder whose name is a key becomes that key's text; the
      others stay as they are. */
  function Fill(ps: seq<Piece>, vars: Vars): (r: seq<Piece>)
    ensures |r| == |ps|
    ensures forall i :: 0 <= i < |ps| ==> r[i] == FillPiece(ps[i], vars)
  {
    seq(|ps|, i requires 0 <= i < |ps| => FillPiece(ps[i], vars))
  }

  lemma ComposeAppend(p: Piece, ps: seq<Piece>)
    ensures Compose([p] + ps) == PieceText(p) + Compose(ps)
  {
    assert ([p] + ps)[1..] == ps;
  }

  /** A placeholder for another name does not match at any of its own
      positions. */
  lemma OtherHoleNoMatch(n: string, k: string, y: string, i: nat)
    requires BraceFree(n) && BraceFree(k) && n != k
    requires i < |Placeholder(n)|
    ensures !OccursAt(Placeholder(n) + y, Placeholder(k), i)
  {
    var s := Placeholder(n) + y;
    var p := Placeholder(k);
    if i + |p| <= |s| {
      // an offset `j` at which `s[i..]` and `p` differ
      var j: nat;
      if i == 0 {
        if |n| < |k| {
          j := 2 + |n|;
          assert s[j] == '}';
          assert p[j] == k[|n|] && k[|n|] in k;
        } else if |n| > |k| {
          j := 2 + |k|;
          assert s[j] == n[|k|] && n[|k|] in n;
          assert p[j] == '}';
        } else {
          var m :| 0 <= m < |n| && n[m] != k[m];
          j := 2 + m;
          assert s[j] == n[m] && p[j] == k[m];
        }
      } else if i == 1 {
        j := 1;
        if n == [] {
          assert s[2] == '}';
        } else {
          assert s[2] == n[0] && n[0] in n;
        }
      } else {
        j := 0;
        if i < |n| + 2 {
          assert s[i] == n[i - 2] && n[i - 2] in n;
        } else {
          assert s[i] == '}';
        }
      }
      assert j < |p| && s[i + j] != p[j];
      assert s[i..i + |p|][j] == s[i + j];
    }
  }

  /** One replace turns exactly the placeholders of key `k` into its text. */
  lemma {:induction false} ReplaceFillsOneKey(ps: seq<Piece>, k: string, v: Value)
    requires WellFormed(ps) && BraceFree(k)
    ensures ReplaceAll(Compose(ps), Placeholder(k), ReplacementText(v)) == Compose(Fill(ps, [(k, v)]))
    decreases |ps|
  {
    var pat := Placeholder(k);
    var rep := ReplacementText(v);
    if ps == [] {
      assert Fill(ps, [(k, v)]) == [];
    } else {
      var rest := ps[1..];
      assert WellFormed(rest) by {
        forall i | 0 <= i < |rest| ensures rest[i] == ps[i + 1] { }
      }
      ReplaceFillsOneKey(rest, k, v);
      assert Fill(ps, [(k, v)]) == [FillPiece(ps[0], [(k, v)])] + Fill(rest, [(k, v)]);
      ComposeAppend(FillPiece(ps[0], [(k, v)]), Fill(rest, [(k, v)]));
      var y := Compose(rest);
      match ps[0]
      case Lit(t) =>
        assert '{' !in t by { assert WellFormed(ps); }
        forall i | 0 <= i < |t| ensures !OccursAt(t + y, pat, i) {
          assert (t + y)[i] == t[i];
          assert t[i] in t;
        }
        ReplaceSkipsPrefix(t, y, pat, rep);
      case Hole(n) =>
        assert BraceFree(n) by { assert WellFormed(ps); }
        if n == k {
          assert (pat + y)[..|pat|] == pat;
          assert (pat + y)[|pat|..] == y;
        } else {
          assert [(k, v)][1..] == [];
          assert Lookup([(k, v)], n) == Lookup([], n) == None;
          assert FillPiece(ps[0], [(k, v)]) == Hole(n);
          forall i | 0 <= i < |Placeholder(n)| ensures !OccursAt(Placeholder(n) + y, pat, i) {
            OtherHoleNoMatch(n, k, y, i);
          }
          ReplaceSkipsPrefix(Placeholder(n), y, pat, rep);
        }
    }
  }

  lemma FillTwice(ps: seq<Piece>, kv: (string, Value), rest: Vars)
    ensures Fill(Fill(ps, [kv]), rest) == Fill(ps, [kv] + rest)
  {
    assert ([kv] + rest)[0] == kv;
    assert ([kv] + rest)[1..] == rest;
    assert [kv][1..] == [];
    forall i | 0 <= i < |ps| ensures FillPiece(FillPiece(ps[i], [kv]), rest) == FillPiece(ps[i], [kv] + rest) {
      match ps[i]
      case Lit(_) =>
      case Hole(n) =>
        if kv.0 != n {
          assert Lookup([kv], n) == Lookup([], n) == None;
          assert Lookup([kv] + rest, n) == Lookup(rest, n);
        }
    }
  }

  /** What `replaceVariables` does to a template made of literal text and
      placeholders, when no value brings braces of its own: every placeholder
      whose name is a key is replaced by that key's text (`''` for a falsy
      value), and every other placeholder is left verbatim. */
  lemma {:induction false} RenderFillsPlaceholders(ps: seq<Piece>, vars: Vars)
    requires WellFormed(ps) && PlainVars(vars)
    ensures Render(Compose(ps), vars) == Compose(Fill(ps, vars))
    decreases |vars|
  {
    if vars == [] {
      assert Fill(ps, vars) == ps;
    } else {
      var (k, v) := vars[0];
      ReplaceFillsOneKey(ps, k, v);
      var ps' := Fill(ps, [(k, v)]);
      assert WellFormed(ps') by {
        assert '{' !in ReplacementText(v);
        assert [(k, v)][1..] == [];
        forall i | 0 <= i < |ps'| ensures match ps'[i] case Lit(t) => '{' !in t case Hole(n) => BraceFree(n) {
          assert ps'[i] == FillPiece(ps[i], [(k, v)]);
          match ps[i]
          case Lit(_) =>
          case Hole(n) =>
            if k != n {
              assert Lookup([(k, v)], n) == Lookup([], n) == None;
            }
        }
      }
      assert PlainVars(vars[1..]) by {
        forall j | 0 <= j < |vars[1..]| ensures vars[1..][j] == vars[j + 1] { }
      }
      RenderFillsPlaceholders(ps', vars[1..]);
      assert vars == [(k, v)] + vars[1..];
      FillTwice(ps, (k, v), vars[1..]);
    }
  }

  lemma FillIdempotent(ps: seq<Piece>, vars: Vars)
    ensures Fill(Fill(ps, vars), vars) == Fill(ps, vars)
  {
  }

  /** On such templates, rendering again with the same variables changes
      nothing more: no placeholder of a key survives the first rendering. */
  lemma RenderIdempotent(ps: seq<Piece>, vars: Vars)
    requires WellFormed(ps) && PlainVars(vars)
    ensures Render(Render(Compose(ps), vars), vars) == Render(Compose(ps), vars)
  {
    RenderFillsPlaceholders(ps, vars);
    var filled := Fill(ps, vars);
    assert WellFormed(filled) by {
      forall i | 0 <= i < |filled| ensures match filled[i] case Lit(t) => '{' !in t case Hole(n) => BraceFree(n) {
        match ps[i]
        case Lit(_) =>
        case Hole(n) =>
          LookupFound(vars, n);
      }
    }
    RenderFillsPlaceholders(filled, vars);
    FillIdempotent(ps, vars);
  }

  lemma {:induction false} LookupFound(vars: Vars, name: string)
    ensures Lookup(vars, name).Some? ==> exists k :: 0 <= k < |vars| && vars[k] == (name, Lookup(vars, name).value)
    decreases |vars|
  {
    if vars != [] && vars[0].0 != name {
      LookupFound(vars[1..], name);
      if Lookup(vars, name).Some? {
        var k :| 0 <= k < |vars[1..]| && vars[1..][k] == (name, Lookup(vars, name).value);
        assert vars[k + 1] == vars[1..][k];
      }
    } else if vars != [] {
      assert vars[0] == (name, Lookup(vars, name).value);
    }
  }

  /** The sequential replace rescans text inserted for an earlier key, but
      not text inserted for a later one. */
  lemma RenderRescansEarlierValues()
    ensures Render("{{a}}", [("a", Text("{{b}}")), ("b", Text("X"))]) == "X"
    ensures Render("{{b}}", [("a", Text("X")), ("b", Text("{{a}}"))]) == "{{a}}"
  {
    var vs1: Vars := [("a", Text("{{b}}")), ("b", Text("X"))];
    assert Placeholder("a") == "{{a}}";
    assert Placeholder("b") == "{{b}}";
    assert ReplaceAll("{{a}}", "{{a}}", "{{b}}") == "{{b}}" + ReplaceAll("", "{{a}}", "{{b}}");
    assert ReplaceAll("{{b}}", "{{b}}", "X") == "X" + ReplaceAll("", "{{b}}", "X");
    assert vs1[1..] == [("b", Text("X"))];
    assert vs1[1..][1..] == [];
    var vs2: Vars := [("a", Text("X")), ("b", Text("{{a}}"))];
    assert "{{b}}"[..5] != "{{a}}" by { assert "{{b}}"[2] != "{{a}}"[2]; }
    assert ReplaceAll("{{b}}", "{{a}}", "X") == "{{b}}" by {
      ReplaceWithoutMatch("{{b}}", "{{a}}", "X");
    }
    assert ReplaceAll("{{b}}", "{{b}}", "{{a}}") == "{{a}}" + ReplaceAll("", "{{b}}", "{{a}}");
    assert vs2[1..] == [("b", Text("{{a}}"))];
    assert vs2[1..][1..] == [];
  }
}

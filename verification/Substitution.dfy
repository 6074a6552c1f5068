/** Template expansion by repeated `str.replace` (gateway/agentdsl.py): what replacing the
    placeholders one after the other yields, and exactly when that is the expansion of all of
    them at once. */
module Substitution {
  import opened Text

  /** `s.replace(token, value)`: occurrences from left to right, not overlapping. */
  function Replace(s: string, token: string, value: string): (r: string)
    requires token != ""
    decreases |s|
  {
    if s == "" then ""
    else if StartsWith(s, token) then value + Replace(s[|token|..], token, value)
    else [s[0]] + Replace(s[1..], token, value)
  }

  predicate Contains(s: string, token: string)
  {
    exists i :: 0 <= i <= |s| && StartsWith(s[i..], token)
  }

  /** No two underscores in a row. */
  predicate NoDunder(s: string)
  {
    forall i :: 0 <= i < |s| - 1 ==> !(s[i] == '_' && s[i + 1] == '_')
  }

  predicate IsUpper(c: char) { 'A' <= c <= 'Z' }

  predicate IsToken(k: string)
  {
    k != "" && forall i :: 0 <= i < |k| ==> IsUpper(k[i])
  }

  function Mark(k: string): (s: string)
    ensures s != ""
  {
    "__" + (k + "__")
  }

  datatype Hole = Token(name: string) | Value(text: string)

  /** A template: pieces of fixed text with holes between them. */
  datatype Template = End | Piece(text: string, rest: Template) | Slot(hole: Hole, rest: Template)

  function HoleText(h: Hole): (s: string)
  {
    match h case Token(k) => Mark(k) case Value(v) => v
  }

  function Flat(t: Template): (s: string)
  {
    match t
    case End => ""
    case Piece(s, rest) => s + Flat(rest)
    case Slot(h, rest) => HoleText(h) + Flat(rest)
  }

  /** Fixed text that neither contains nor completes a placeholder. */
  predicate PlainPiece(s: string)
  {
    && s != "" && s[0] != '_' && s[|s| - 1] != '_' && NoDunder(s)
    && exists i :: 0 <= i < |s| && !IsUpper(s[i])
  }

  /** Every hole is followed by fixed text; nothing is asked of the values. */
  predicate WellMade(t: Template)
  {
    match t
    case End => true
    case Piece(s, rest) => PlainPiece(s) && WellMade(rest)
    case Slot(h, rest) => (h.Token? ==> IsToken(h.name)) && rest.Piece? && WellMade(rest)
  }

  // ----- where a mark can occur -----

  lemma DifferAt(s: string, token: string, i: nat)
    requires i < |token| && (i < |s| ==> s[i] != token[i])
    ensures !StartsWith(s, token)
  {
    if |token| <= |s| {
      assert s[..|token|][i] == s[i];
    }
  }

  lemma MarkChars(k: string)
    ensures |Mark(k)| == |k| + 4
    ensures forall i :: 0 <= i < |k| ==> Mark(k)[i + 2] == k[i]
    ensures Mark(k)[0] == '_' && Mark(k)[1] == '_' && Mark(k)[|k| + 2] == '_' && Mark(k)[|k| + 3] == '_'
  {}

  /** A mark starts with two underscores. */
  lemma NoMarkAt(s: string, k: string)
    requires |s| < 2 || s[0] != '_' || s[1] != '_'
    ensures !StartsWith(s, Mark(k))
  {
    MarkChars(k);
    DifferAt(s, Mark(k), if |s| >= 1 && s[0] == '_' then 1 else 0);
  }

  ghost function FirstLower(p: string): (i: nat)
    requires exists i :: 0 <= i < |p| && !IsUpper(p[i])
    ensures i < |p| && !IsUpper(p[i]) && forall j :: 0 <= j < i ==> IsUpper(p[j])
  {
    if !IsUpper(p[0]) then 0
    else
      var i :| 0 <= i < |p| && !IsUpper(p[i]);
      assert !IsUpper(p[1..][i - 1]);
      1 + FirstLower(p[1..])
  }

  /** No mark begins d characters before a plain piece and reaches into it. */
  lemma NoStraddle(s: string, d: nat, p: string, rest: string, k: string)
    requires 0 < d < |Mark(k)| && d <= |s| && s[d..] == p + rest && PlainPiece(p) && IsToken(k)
    ensures !StartsWith(s, Mark(k))
  {
    MarkChars(k);
    assert forall j :: 0 <= j < |p| ==> s[d + j] == s[d..][j] == p[j];
    var i := FirstLower(p);
    if d == 1 || d >= |k| + 2 {
      assert s[d + 0] == p[0];
      DifferAt(s, Mark(k), d);
    } else if d + i < |k| + 2 {
      assert Mark(k)[d + i] == k[d + i - 2];
      DifferAt(s, Mark(k), d + i);
    } else if d + i == |k| + 2 && p[i] == '_' {
      assert s[d + (i + 1)] == p[i + 1];
      DifferAt(s, Mark(k), |k| + 3);
    } else {
      assert s[d + (|k| + 2 - d)] == p[|k| + 2 - d];
      DifferAt(s, Mark(k), |k| + 2);
    }
  }

  // ----- replacement, piece by piece -----

  /** Text that no token occurrence starts in is copied. */
  lemma {:induction false} CopyWithout(x: string, r: string, token: string, v: string)
    requires token != "" && forall i :: 0 <= i < |x| ==> !StartsWith((x + r)[i..], token)
    ensures Replace(x + r, token, v) == x + Replace(r, token, v)
    decreases |x|
  {
    var s := x + r;
    if x == "" {
      assert s == r && "" + Replace(r, token, v) == Replace(r, token, v);
    } else {
      assert s[0..] == s && !StartsWith(s[0..], token);
      assert s[1..] == x[1..] + r && s[0] == x[0];
      forall i | 0 <= i < |x[1..]| ensures !StartsWith((x[1..] + r)[i..], token) {
        assert (x[1..] + r)[i..] == s[i + 1..];
      }
      CopyWithout(x[1..], r, token, v);
      assert x == [x[0]] + x[1..];
    }
  }

  /** A plain piece is copied whatever follows. */
  lemma CopyPiece(p: string, r: string, k: string, v: string)
    requires PlainPiece(p)
    ensures Replace(p + r, Mark(k), v) == p + Replace(r, Mark(k), v)
  {
    forall i | 0 <= i < |p| ensures !StartsWith((p + r)[i..], Mark(k)) {
      NoMarkAt((p + r)[i..], k);
    }
    CopyWithout(p, r, Mark(k), v);
  }

  /** Any text in front of a plain piece is rewritten on its own. */
  lemma {:induction false} ReplaceBeforePiece(x: string, p: string, rest: string, k: string, v: string)
    requires PlainPiece(p) && IsToken(k)
    ensures Replace(x + (p + rest), Mark(k), v) == Replace(x, Mark(k), v) + Replace(p + rest, Mark(k), v)
    decreases |x|
  {
    var m, r := Mark(k), p + rest;
    var s := x + r;
    if x == "" {
      assert s == r && "" + Replace(r, m, v) == Replace(r, m, v);
    } else if StartsWith(s, m) {
      if |x| < |m| {
        NoStraddle(s, |x|, p, rest, k);
      }
      assert x[..|m|] == s[..|m|] && s[|m|..] == x[|m|..] + r;
      ReplaceBeforePiece(x[|m|..], p, rest, k, v);
      assert v + (Replace(x[|m|..], m, v) + Replace(r, m, v)) == (v + Replace(x[|m|..], m, v)) + Replace(r, m, v);
    } else {
      PrefixStarts(x, r, m);
      assert s[0] == x[0] && s[1..] == x[1..] + r;
      ReplaceBeforePiece(x[1..], p, rest, k, v);
      assert [x[0]] + (Replace(x[1..], m, v) + Replace(r, m, v)) == ([x[0]] + Replace(x[1..], m, v)) + Replace(r, m, v);
    }
  }

  lemma PrefixStarts(x: string, r: string, token: string)
    ensures StartsWith(x, token) ==> StartsWith(x + r, token)
  {
    if StartsWith(x, token) {
      assert (x + r)[..|token|] == x[..|token|];
    }
  }

  lemma MarksDiffer(j: string, k: string)
    requires j != k && IsToken(j) && IsToken(k)
    ensures !StartsWith(Mark(j), Mark(k))
  {
    MarkChars(j);
    MarkChars(k);
    if |j| == |k| {
      var i :| 0 <= i < |j| && j[i] != k[i];
      DifferAt(Mark(j), Mark(k), i + 2);
    } else if |j| < |k| {
      assert Mark(k)[|j| + 2] == k[|j|];
      DifferAt(Mark(j), Mark(k), |j| + 2);
    } else {
      assert Mark(j)[|k| + 2] == j[|k|];
      DifferAt(Mark(j), Mark(k), |k| + 2);
    }
  }

  lemma ReplaceOtherMark(j: string, k: string, v: string)
    requires j != k && IsToken(j) && IsToken(k)
    ensures Replace(Mark(j), Mark(k), v) == Mark(j)
  {
    var m := Mark(j);
    MarkChars(j);
    MarkChars(k);
    forall i | 0 <= i < |m| ensures !StartsWith((m + "")[i..], Mark(k)) {
      assert (m + "")[i..] == m[i..];
      if i == 0 {
        MarksDiffer(j, k);
        assert m[0..] == m;
      } else if i == |j| + 2 {
        DifferAt(m[i..], Mark(k), 2);
      } else {
        assert 2 <= i < |j| + 2 ==> m[i] == j[i - 2];
        assert i == 1 ==> m[2] == j[0];
        NoMarkAt(m[i..], k);
      }
    }
    CopyWithout(m, "", Mark(k), v);
    assert m + "" == m;
  }

  lemma ReplaceMark(k: string, v: string)
    ensures Replace(Mark(k), Mark(k), v) == v
  {
    var m := Mark(k);
    assert m[..|m|] == m && m[|m|..] == "" && v + "" == v;
  }

  // ----- one replacement on a template -----

  /** What one replacement does to a hole; a value is rewritten too. */
  function RewriteHole(h: Hole, k: string, v: string): (r: Hole)
  {
    match h
    case Token(j) => if j == k then Value(v) else h
    case Value(x) => Value(Replace(x, Mark(k), v))
  }

  function Rewrite(t: Template, k: string, v: string): (r: Template)
  {
    match t
    case End => End
    case Piece(s, rest) => Piece(s, Rewrite(rest, k, v))
    case Slot(h, rest) => Slot(RewriteHole(h, k, v), Rewrite(rest, k, v))
  }

  lemma ReplaceHole(h: Hole, k: string, v: string)
    requires IsToken(k) && (h.Token? ==> IsToken(h.name))
    ensures Replace(HoleText(h), Mark(k), v) == HoleText(RewriteHole(h, k, v))
  {
    if h == Token(k) {
      ReplaceMark(k, v);
    } else if h.Token? {
      ReplaceOtherMark(h.name, k, v);
    }
  }

  /** One `str.replace` over the whole text works hole by hole, whatever the values hold. */
  lemma {:induction false} ReplaceRewrites(t: Template, k: string, v: string)
    requires WellMade(t) && IsToken(k)
    ensures Replace(Flat(t), Mark(k), v) == Flat(Rewrite(t, k, v))
    ensures WellMade(Rewrite(t, k, v))
  {
    match t
    case End =>
    case Piece(s, rest) =>
      CopyPiece(s, Flat(rest), k, v);
      ReplaceRewrites(rest, k, v);
    case Slot(h, rest) =>
      ReplaceHole(h, k, v);
      ReplaceBeforePiece(HoleText(h), rest.text, Flat(rest.rest), k, v);
      ReplaceRewrites(rest, k, v);
  }

  // ----- all replacements -----

  type Subs = seq<(string, string)>

  /** The loop over the substitution table. */
  method ReplaceAll(text: string, subs: Subs) returns (out: string)
    ensures out == ReplaceEach(text, subs)
  {
    out := text;
    for i := 0 to |subs|
      invariant ReplaceEach(out, subs[i..]) == ReplaceEach(text, subs)
    {
      assert subs[i..][0] == subs[i] && subs[i..][1..] == subs[i + 1..];
      out := Replace(out, Mark(subs[i].0), subs[i].1);
    }
    assert subs[|subs|..] == [];
  }

  function ReplaceEach(s: string, subs: Subs): (r: string)
    decreases |subs|
  {
    if subs == [] then s else ReplaceEach(Replace(s, Mark(subs[0].0), subs[0].1), subs[1..])
  }

  function Get(subs: Subs, k: string): (v: Option<string>)
  {
    if subs == [] then None else if subs[0].0 == k then Some(subs[0].1) else Get(subs[1..], k)
  }

  /** The entries after the one that gives k its value. */
  function Later(subs: Subs, k: string): (r: Subs)
  {
    if subs == [] then [] else if subs[0].0 == k then subs[1..] else Later(subs[1..], k)
  }

  predicate TokenKeys(subs: Subs)
  {
    forall i :: 0 <= i < |subs| ==> IsToken(subs[i].0)
  }

  /** A placeholder's value after the later entries have been applied to it as well. */
  function SettleHole(h: Hole, subs: Subs): (r: Hole)
  {
    match h
    case Value(x) => Value(ReplaceEach(x, subs))
    case Token(k) => match Get(subs, k) case None => h case Some(v) => Value(ReplaceEach(v, Later(subs, k)))
  }

  function Settle(t: Template, subs: Subs): (r: Template)
  {
    match t
    case End => End
    case Piece(s, rest) => Piece(s, Settle(rest, subs))
    case Slot(h, rest) => Slot(SettleHole(h, subs), Settle(rest, subs))
  }

  lemma {:induction false} SettleNothing(t: Template)
    ensures Settle(t, []) == t
  {
    match t
    case End =>
    case Piece(_, rest) => SettleNothing(rest);
    case Slot(_, rest) => SettleNothing(rest);
  }

  lemma {:induction false} SettleAfterRewrite(t: Template, subs: Subs)
    requires subs != []
    ensures Settle(Rewrite(t, subs[0].0, subs[0].1), subs[1..]) == Settle(t, subs)
    decreases t
  {
    match t
    case End =>
    case Piece(_, rest) => SettleAfterRewrite(rest, subs);
    case Slot(_, rest) => SettleAfterRewrite(rest, subs);
  }

  /** For every table and whatever the values hold: replacing one after the other gives the
      expansion in which each value has been rewritten by the later entries. */
  lemma {:induction false} SequentialSettles(t: Template, subs: Subs)
    requires WellMade(t) && TokenKeys(subs)
    ensures ReplaceEach(Flat(t), subs) == Flat(Settle(t, subs))
    decreases |subs|
  {
    if subs == [] {
      SettleNothing(t);
    } else {
      ReplaceRewrites(t, subs[0].0, subs[0].1);
      SettleAfterRewrite(t, subs);
      SequentialSettles(Rewrite(t, subs[0].0, subs[0].1), subs[1..]);
    }
  }

  // ----- simultaneous expansion -----

  function SubstHole(h: Hole, subs: Subs): (r: Hole)
  {
    match h
    case Value(x) => h
    case Token(k) => match Get(subs, k) case None => h case Some(v) => Value(v)
  }

  function Subst(t: Template, subs: Subs): (r: Template)
  {
    match t
    case End => End
    case Piece(s, rest) => Piece(s, Subst(rest, subs))
    case Slot(h, rest) => Slot(SubstHole(h, subs), Subst(rest, subs))
  }

  /** Simultaneous expansion: every placeholder becomes its value in one pass. */
  function Expand(t: Template, subs: Subs): (r: string)
  {
    Flat(Subst(t, subs))
  }

  lemma {:induction false} SubstNothing(t: Template)
    ensures Subst(t, []) == t
  {
    match t
    case End =>
    case Piece(_, rest) => SubstNothing(rest);
    case Slot(_, rest) => SubstNothing(rest);
  }

  lemma {:induction false} SubstKeepsWellMade(t: Template, subs: Subs)
    requires WellMade(t)
    ensures WellMade(Subst(t, subs))
  {
    match t
    case End =>
    case Piece(_, rest) => SubstKeepsWellMade(rest, subs);
    case Slot(_, rest) => SubstKeepsWellMade(rest, subs);
  }

  lemma {:induction false} GetSnoc(subs: Subs, e: (string, string), k: string)
    ensures Get(subs + [e], k) == if Get(subs, k).Some? then Get(subs, k) else if e.0 == k then Some(e.1) else None
  {
    if subs == [] {
      assert [e][1..] == [] && subs + [e] == [e];
    } else {
      assert (subs + [e])[1..] == subs[1..] + [e];
      GetSnoc(subs[1..], e, k);
    }
  }

  lemma GetOne(e: (string, string), k: string)
    ensures Get([e], k) == if e.0 == k then Some(e.1) else None
  {
    GetSnoc([], e, k);
    assert [] + [e] == [e];
  }

  lemma {:induction false} SubstSnoc(t: Template, subs: Subs, e: (string, string))
    ensures Subst(t, subs + [e]) == Subst(Subst(t, subs), [e])
    decreases t
  {
    match t
    case End =>
    case Piece(_, rest) => SubstSnoc(rest, subs, e);
    case Slot(h, rest) =>
      SubstSnoc(rest, subs, e);
      if h.Token? {
        GetSnoc(subs, e, h.name);
        GetOne(e, h.name);
      }
  }

  lemma {:induction false} ReplaceEachSnoc(s: string, subs: Subs, e: (string, string))
    ensures ReplaceEach(s, subs + [e]) == Replace(ReplaceEach(s, subs), Mark(e.0), e.1)
    decreases |subs|
  {
    if subs == [] {
      assert subs + [e] == [e] && [e][1..] == [];
    } else {
      assert (subs + [e])[1..] == subs[1..] + [e];
      ReplaceEachSnoc(Replace(s, Mark(subs[0].0), subs[0].1), subs[1..], e);
    }
  }

  // ----- when a replacement leaves a value alone -----

  lemma ContainsFrom(x: string, i: nat, m: string)
    requires i <= |x| && Contains(x[i..], m)
    ensures Contains(x, m)
  {
    var j :| 0 <= j <= |x[i..]| && StartsWith(x[i..][j..], m);
    assert x[i..][j..] == x[i + j..];
  }

  lemma ContainsStep(x: string, m: string)
    requires x != ""
    ensures Contains(x, m) <==> StartsWith(x, m) || Contains(x[1..], m)
  {
    assert x[0..] == x;
    if Contains(x[1..], m) {
      ContainsFrom(x, 1, m);
    }
    if Contains(x, m) && !StartsWith(x, m) {
      var i :| 0 <= i <= |x| && StartsWith(x[i..], m);
      assert x[1..][i - 1..] == x[i..];
    }
  }

  lemma {:induction false} ReplaceAbsent(x: string, m: string, v: string)
    requires m != "" && (v == m || !Contains(x, m))
    ensures Replace(x, m, v) == x
    decreases |x|
  {
    if x != "" {
      ContainsStep(x, m);
      if StartsWith(x, m) {
        assert x[0..] == x;
        ReplaceAbsent(x[|m|..], m, v);
        assert x == x[..|m|] + x[|m|..];
      } else {
        ReplaceAbsent(x[1..], m, v);
        assert x == [x[0]] + x[1..];
      }
    }
  }

  lemma {:induction false} ReplaceGrows(x: string, m: string, v: string)
    requires m != "" && |v| >= |m|
    ensures |Replace(x, m, v)| >= |x|
    ensures |v| > |m| && Contains(x, m) ==> |Replace(x, m, v)| > |x|
    decreases |x|
  {
    if x != "" {
      ContainsStep(x, m);
      ReplaceGrows(if StartsWith(x, m) then x[|m|..] else x[1..], m, v);
    }
  }

  lemma {:induction false} ReplaceShrinks(x: string, m: string, v: string)
    requires m != "" && |v| <= |m|
    ensures |Replace(x, m, v)| <= |x|
    ensures |v| < |m| && Contains(x, m) ==> |Replace(x, m, v)| < |x|
    decreases |x|
  {
    if x != "" {
      ContainsStep(x, m);
      ReplaceShrinks(if StartsWith(x, m) then x[|m|..] else x[1..], m, v);
    }
  }

  lemma {:induction false} ReplaceChanges(x: string, m: string, v: string)
    requires m != "" && |v| == |m| && v != m && Contains(x, m)
    ensures Replace(x, m, v) != x
    decreases |x|
  {
    if x != "" {
      ContainsStep(x, m);
      if StartsWith(x, m) {
        assert Replace(x, m, v)[..|m|] == v;
      } else {
        ReplaceChanges(x[1..], m, v);
        assert Replace(x, m, v)[1..] == Replace(x[1..], m, v);
      }
    }
  }

  /** A replacement keeps a text exactly when the text lacks the token or the value is the token. */
  lemma ReplaceKeepsExactly(x: string, m: string, v: string)
    requires m != ""
    ensures Replace(x, m, v) == x <==> v == m || !Contains(x, m)
  {
    if v == m || !Contains(x, m) {
      ReplaceAbsent(x, m, v);
    } else if |v| > |m| {
      ReplaceGrows(x, m, v);
    } else if |v| < |m| {
      ReplaceShrinks(x, m, v);
    } else {
      ReplaceChanges(x, m, v);
    }
  }

  // ----- when the order of replacement does not matter -----

  /** Some value already in the template holds m. */
  predicate ValueHolds(t: Template, m: string)
  {
    match t
    case End => false
    case Piece(_, rest) => ValueHolds(rest, m)
    case Slot(h, rest) => (h.Value? && Contains(h.text, m)) || ValueHolds(rest, m)
  }

  lemma FillOne(h: Hole, k: string, v: string)
    ensures SubstHole(h, [(k, v)]) == if h.Value? then h else RewriteHole(h, k, v)
  {
    if h.Token? {
      GetOne((k, v), h.name);
    }
  }

  lemma {:induction false} RewriteIsFill(t: Template, k: string, v: string)
    requires v == Mark(k) || !ValueHolds(t, Mark(k))
    ensures Rewrite(t, k, v) == Subst(t, [(k, v)])
  {
    match t
    case End =>
    case Piece(_, rest) => RewriteIsFill(rest, k, v);
    case Slot(h, rest) =>
      RewriteIsFill(rest, k, v);
      FillOne(h, k, v);
      if h.Value? {
        ReplaceAbsent(h.text, Mark(k), v);
      }
  }

  lemma {:induction false} RewriteGrows(t: Template, k: string, v: string)
    requires |v| >= |Mark(k)|
    ensures |Flat(Rewrite(t, k, v))| >= |Flat(Subst(t, [(k, v)]))|
    ensures |v| > |Mark(k)| && ValueHolds(t, Mark(k)) ==> |Flat(Rewrite(t, k, v))| > |Flat(Subst(t, [(k, v)]))|
  {
    match t
    case End =>
    case Piece(_, rest) => RewriteGrows(rest, k, v);
    case Slot(h, rest) =>
      RewriteGrows(rest, k, v);
      FillOne(h, k, v);
      if h.Value? {
        ReplaceGrows(h.text, Mark(k), v);
      }
  }

  lemma {:induction false} RewriteShrinks(t: Template, k: string, v: string)
    requires |v| <= |Mark(k)|
    ensures |Flat(Rewrite(t, k, v))| <= |Flat(Subst(t, [(k, v)]))|
    ensures |v| < |Mark(k)| && ValueHolds(t, Mark(k)) ==> |Flat(Rewrite(t, k, v))| < |Flat(Subst(t, [(k, v)]))|
  {
    match t
    case End =>
    case Piece(_, rest) => RewriteShrinks(rest, k, v);
    case Slot(h, rest) =>
      RewriteShrinks(rest, k, v);
      FillOne(h, k, v);
      if h.Value? {
        ReplaceShrinks(h.text, Mark(k), v);
      }
  }

  lemma DifferAfter(a: string, b: string, x: string, y: string)
    requires |a| == |b| && (a != b || x != y)
    ensures a + x != b + y
  {
    assert (a + x)[..|a|] == a && (b + y)[..|b|] == b;
    assert (a + x)[|a|..] == x && (b + y)[|b|..] == y;
  }

  lemma {:induction false} RewriteChanges(t: Template, k: string, v: string)
    requires |v| == |Mark(k)| && v != Mark(k) && ValueHolds(t, Mark(k))
    ensures Flat(Rewrite(t, k, v)) != Flat(Subst(t, [(k, v)]))
  {
    match t
    case Piece(s, rest) =>
      RewriteChanges(rest, k, v);
      DifferAfter(s, s, Flat(Rewrite(rest, k, v)), Flat(Subst(rest, [(k, v)])));
    case Slot(h, rest) =>
      FillOne(h, k, v);
      var a, b := HoleText(RewriteHole(h, k, v)), HoleText(SubstHole(h, [(k, v)]));
      if h.Value? {
        ReplaceGrows(h.text, Mark(k), v);
        ReplaceShrinks(h.text, Mark(k), v);
      }
      if h.Value? && Contains(h.text, Mark(k)) {
        ReplaceChanges(h.text, Mark(k), v);
      } else {
        RewriteChanges(rest, k, v);
      }
      DifferAfter(a, b, Flat(Rewrite(rest, k, v)), Flat(Subst(rest, [(k, v)])));
  }

  /** One replacement fills its placeholder and does nothing else exactly when no value already
      placed holds that placeholder. */
  lemma RewriteIsFillExactly(t: Template, k: string, v: string)
    ensures Flat(Rewrite(t, k, v)) == Flat(Subst(t, [(k, v)])) <==> v == Mark(k) || !ValueHolds(t, Mark(k))
  {
    if v == Mark(k) || !ValueHolds(t, Mark(k)) {
      RewriteIsFill(t, k, v);
    } else if |v| > |Mark(k)| {
      RewriteGrows(t, k, v);
    } else if |v| < |Mark(k)| {
      RewriteShrinks(t, k, v);
    } else {
      RewriteChanges(t, k, v);
    }
  }

  /** The placeholders of a template, in order of appearance. */
  function Holes(t: Template): (r: seq<string>)
  {
    match t
    case End => []
    case Piece(_, rest) => Holes(rest)
    case Slot(h, rest) => (match h case Token(k) => [k] case Value(_) => []) + Holes(rest)
  }

  /** A template as written: no hole is filled yet. */
  predicate Unfilled(t: Template)
  {
    match t
    case End => true
    case Piece(_, rest) => Unfilled(rest)
    case Slot(h, rest) => h.Token? && Unfilled(rest)
  }

  /** The value of some placeholder in ks holds m. */
  predicate UsedValueHolds(ks: seq<string>, subs: Subs, m: string)
  {
    exists i :: 0 <= i < |ks| && Get(subs, ks[i]).Some? && Contains(Get(subs, ks[i]).value, m)
  }

  /** Entry n would rewrite a value that an earlier entry put in place of one of ks. */
  predicate Clashes(ks: seq<string>, subs: Subs, n: nat)
    requires n < |subs|
  {
    subs[n].1 != Mark(subs[n].0) && UsedValueHolds(ks, subs[..n], Mark(subs[n].0))
  }

  lemma UsedSplits(a: seq<string>, b: seq<string>, subs: Subs, m: string)
    ensures UsedValueHolds(a + b, subs, m) <==> UsedValueHolds(a, subs, m) || UsedValueHolds(b, subs, m)
  {
    var c := a + b;
    assert forall i :: 0 <= i < |a| ==> c[i] == a[i];
    assert forall i :: 0 <= i < |b| ==> c[|a| + i] == b[i];
    if UsedValueHolds(c, subs, m) {
      var i :| 0 <= i < |c| && Get(subs, c[i]).Some? && Contains(Get(subs, c[i]).value, m);
      if i < |a| {
        assert c[i] == a[i];
      } else {
        assert c[i] == b[i - |a|];
      }
    }
  }

  lemma {:induction false} PlacedValues(t: Template, subs: Subs, m: string)
    requires Unfilled(t)
    ensures ValueHolds(Subst(t, subs), m) <==> UsedValueHolds(Holes(t), subs, m)
  {
    match t
    case End =>
    case Piece(_, rest) => PlacedValues(rest, subs, m);
    case Slot(h, rest) =>
      PlacedValues(rest, subs, m);
      UsedSplits([h.name], Holes(rest), subs, m);
      assert [h.name][0] == h.name;
  }

  predicate AgreeAt(t: Template, subs: Subs, n: nat)
    requires n <= |subs|
  {
    ReplaceEach(Flat(t), subs[..n]) == Expand(t, subs[..n])
  }

  lemma AgreeStep(t: Template, subs: Subs, n: nat)
    requires WellMade(t) && Unfilled(t) && TokenKeys(subs) && n < |subs| && AgreeAt(t, subs, n)
    ensures AgreeAt(t, subs, n + 1) <==> !Clashes(Holes(t), subs, n)
  {
    var e, done := subs[n], subs[..n];
    var u := Subst(t, done);
    assert subs[..n + 1] == done + [e];
    ReplaceEachSnoc(Flat(t), done, e);
    SubstSnoc(t, done, e);
    SubstKeepsWellMade(t, done);
    ReplaceRewrites(u, e.0, e.1);
    RewriteIsFillExactly(u, e.0, e.1);
    PlacedValues(t, done, Mark(e.0));
    assert e == (e.0, e.1);
  }

  lemma {:induction false} AgreeUpTo(t: Template, subs: Subs, n: nat)
    requires WellMade(t) && Unfilled(t) && TokenKeys(subs) && n <= |subs|
    requires forall i :: 0 <= i < n ==> !Clashes(Holes(t), subs, i)
    ensures AgreeAt(t, subs, n)
  {
    if n == 0 {
      SubstNothing(t);
      assert subs[..0] == [];
    } else {
      AgreeUpTo(t, subs, n - 1);
      AgreeStep(t, subs, n - 1);
    }
  }

  /** No entry finds its own placeholder in a value that an earlier entry has placed. */
  predicate NoClash(ks: seq<string>, subs: Subs)
  {
    forall n :: 0 <= n < |subs| ==> !Clashes(ks, subs, n)
  }

  /** After every entry of the table the text is the simultaneous expansion by the entries so far. */
  predicate AlwaysAgree(t: Template, subs: Subs)
  {
    forall n :: 0 <= n <= |subs| ==> AgreeAt(t, subs, n)
  }

  /** Replacing the placeholders one after the other is simultaneous expansion, entry by entry,
      exactly when no entry finds its own placeholder in a value placed before. */
  lemma SequentialIsSimultaneousExactly(t: Template, subs: Subs)
    requires WellMade(t) && Unfilled(t) && TokenKeys(subs)
    ensures AlwaysAgree(t, subs) <==> NoClash(Holes(t), subs)
  {
    if NoClash(Holes(t), subs) {
      forall n | 0 <= n <= |subs| ensures AgreeAt(t, subs, n) {
        AgreeUpTo(t, subs, n);
      }
    }
    if AlwaysAgree(t, subs) {
      forall n | 0 <= n < |subs| ensures !Clashes(Holes(t), subs, n) {
        assert AgreeAt(t, subs, n) && AgreeAt(t, subs, n + 1);
        AgreeStep(t, subs, n);
      }
    }
  }

  lemma SequentialIsSimultaneous(t: Template, subs: Subs)
    requires WellMade(t) && Unfilled(t) && TokenKeys(subs) && NoClash(Holes(t), subs)
    ensures ReplaceEach(Flat(t), subs) == Expand(t, subs)
  {
    AgreeUpTo(t, subs, |subs|);
    assert subs[..|subs|] == subs;
  }

  // ----- the outcome for every fixed text around the placeholders -----

  /** The later entries give each value of a placeholder in ks back unchanged. */
  predicate ValuesKept(ks: seq<string>, subs: Subs)
  {
    forall i :: 0 <= i < |ks| && Get(subs, ks[i]).Some? ==>
      ReplaceEach(Get(subs, ks[i]).value, Later(subs, ks[i])) == Get(subs, ks[i]).value
  }

  lemma {:induction false} KeptSettles(t: Template, subs: Subs)
    requires Unfilled(t) && ValuesKept(Holes(t), subs)
    ensures Settle(t, subs) == Subst(t, subs)
  {
    match t
    case End =>
    case Piece(_, rest) => KeptSettles(rest, subs);
    case Slot(h, rest) =>
      var ks := Holes(t);
      assert ks == [h.name] + Holes(rest) && ks[0] == h.name;
      assert forall i :: 0 <= i < |Holes(rest)| ==> ks[1 + i] == Holes(rest)[i];
      KeptSettles(rest, subs);
  }

  /** The placeholders ks with the same fixed text before, between and after them. */
  function Around(ks: seq<string>, p: string): (t: Template)
  {
    Piece(p, if ks == [] then End else Slot(Token(ks[0]), Around(ks[1..], p)))
  }

  lemma {:induction false} AroundFits(ks: seq<string>, p: string)
    requires PlainPiece(p) && forall i :: 0 <= i < |ks| ==> IsToken(ks[i])
    ensures WellMade(Around(ks, p)) && Unfilled(Around(ks, p)) && Holes(Around(ks, p)) == ks
  {
    if ks != [] {
      AroundFits(ks[1..], p);
    }
  }

  /** A separator that does not continue the shorter text as the longer one does. */
  function Separator(a: string, b: string): (p: string)
    ensures PlainPiece(p) && |p| == 1
    ensures |a| < |b| ==> b[|a|] != p[0]
    ensures |b| < |a| ==> a[|b|] != p[0]
  {
    var p := if (|a| < |b| && b[|a|] == ' ') || (|b| < |a| && a[|b|] == ' ') then "\n" else " ";
    assert !IsUpper(p[0]);
    p
  }

  lemma SeparatorTells(a: string, b: string, x: string, y: string)
    requires a != b
    ensures a + (Separator(a, b) + x) != b + (Separator(a, b) + y)
  {
    var p := Separator(a, b);
    var s, u := a + (p + x), b + (p + y);
    if |a| == |b| {
      DifferAfter(a, b, p + x, p + y);
    } else if |a| < |b| {
      assert s[|a|] == p[0] && u[|a|] == b[|a|];
    } else {
      assert u[|b|] == p[0] && s[|b|] == a[|b|];
    }
  }

  lemma AroundTexts(ks: seq<string>, p: string, subs: Subs)
    requires ks != []
    ensures var t, rest, h := Around(ks, p), Around(ks[1..], p), Token(ks[0]);
            && Flat(Settle(t, subs)) == p + (HoleText(SettleHole(h, subs)) + Flat(Settle(rest, subs)))
            && Expand(t, subs) == p + (HoleText(SubstHole(h, subs)) + Expand(rest, subs))
  {
    var rest, h := Around(ks[1..], p), Token(ks[0]);
    var u := Slot(h, rest);
    assert Around(ks, p) == Piece(p, u);
    assert Settle(u, subs) == Slot(SettleHole(h, subs), Settle(rest, subs));
    assert Subst(u, subs) == Slot(SubstHole(h, subs), Subst(rest, subs));
    assert Flat(Subst(u, subs)) == HoleText(SubstHole(h, subs)) + Expand(rest, subs);
  }

  lemma {:induction false} ChangeShows(ks: seq<string>, subs: Subs) returns (p: string)
    requires !ValuesKept(ks, subs)
    ensures PlainPiece(p) && Flat(Settle(Around(ks, p), subs)) != Expand(Around(ks, p), subs)
    decreases |ks|
  {
    var a, b := HoleText(SettleHole(Token(ks[0]), subs)), HoleText(SubstHole(Token(ks[0]), subs));
    if a == b {
      assert forall i :: 0 < i < |ks| ==> ks[i] == ks[1..][i - 1];
      p := ChangeShows(ks[1..], subs);
      var rest := Around(ks[1..], p);
      AroundTexts(ks, p, subs);
      DifferAfter(a, b, Flat(Settle(rest, subs)), Expand(rest, subs));
      DifferAfter(p, p, a + Flat(Settle(rest, subs)), b + Expand(rest, subs));
    } else {
      p := Separator(a, b);
      var rest := Around(ks[1..], p);
      AroundTexts(ks, p, subs);
      SeparatorTells(a, b, Flat(Settle(rest.rest, subs)), Expand(rest.rest, subs));
      DifferAfter(p, p, a + Flat(Settle(rest, subs)), b + Expand(rest, subs));
    }
  }

  /** A template with the placeholders ks around any fixed text. */
  ghost predicate Fits(t: Template, ks: seq<string>)
  {
    WellMade(t) && Unfilled(t) && Holes(t) == ks
  }

  /** Whatever the fixed text, the outcome is the simultaneous expansion exactly when the later
      entries give each used value back unchanged. */
  lemma OutcomeIsExpansionExactly(ks: seq<string>, subs: Subs)
    requires TokenKeys(subs) && forall i :: 0 <= i < |ks| ==> IsToken(ks[i])
    ensures (forall t :: Fits(t, ks) ==> ReplaceEach(Flat(t), subs) == Expand(t, subs)) <==> ValuesKept(ks, subs)
  {
    if ValuesKept(ks, subs) {
      forall t | Fits(t, ks) ensures ReplaceEach(Flat(t), subs) == Expand(t, subs) {
        SequentialSettles(t, subs);
        KeptSettles(t, subs);
      }
    } else {
      var p := ChangeShows(ks, subs);
      AroundFits(ks, p);
      SequentialSettles(Around(ks, p), subs);
      assert Fits(Around(ks, p), ks);
    }
  }

  // ----- which placeholders are left behind -----

  lemma ContainsBeforePiece(x: string, p: string, rest: string, k: string)
    requires PlainPiece(p) && IsToken(k)
    ensures Contains(x + (p + rest), Mark(k)) <==> Contains(x, Mark(k)) || Contains(rest, Mark(k))
  {
    var m, s := Mark(k), x + (p + rest);
    if Contains(rest, m) {
      assert s[|x| + |p|..] == rest;
      ContainsFrom(s, |x| + |p|, m);
    }
    if Contains(x, m) {
      var i :| 0 <= i <= |x| && StartsWith(x[i..], m);
      PrefixStarts(x[i..], p + rest, m);
      assert s[i..] == x[i..] + (p + rest);
    }
    if Contains(s, m) {
      var i :| 0 <= i <= |s| && StartsWith(s[i..], m);
      MarkIsInside(x, p, rest, k, i);
    }
  }

  /** An occurrence of a mark lies on one side of a plain piece. */
  lemma MarkIsInside(x: string, p: string, rest: string, k: string, i: nat)
    requires PlainPiece(p) && IsToken(k)
    requires var s := x + (p + rest); i <= |s| && StartsWith(s[i..], Mark(k))
    ensures Contains(x, Mark(k)) || Contains(rest, Mark(k))
  {
    var m, s := Mark(k), x + (p + rest);
    if i >= |x| + |p| {
      assert rest[i - |x| - |p|..] == s[i..];
    } else if i >= |x| {
      assert s[i] == p[i - |x|];
      assert i + 1 < |x| + |p| ==> s[i + 1] == p[i + 1 - |x|];
      NoMarkAt(s[i..], k);
    } else if |x| - i < |m| {
      assert s[i..][|x| - i..] == p + rest;
      NoStraddle(s[i..], |x| - i, p, rest, k);
    } else {
      assert x[i..][..|m|] == s[i..][..|m|];
    }
  }

  /** Some hole's text holds m. */
  predicate HoleHolds(t: Template, m: string)
  {
    match t
    case End => false
    case Piece(_, rest) => HoleHolds(rest, m)
    case Slot(h, rest) => Contains(HoleText(h), m) || HoleHolds(rest, m)
  }

  lemma PlainHoldsNoMark(p: string, k: string)
    requires NoDunder(p)
    ensures !Contains(p, Mark(k))
  {
    forall i | 0 <= i <= |p| ensures !StartsWith(p[i..], Mark(k)) {
      NoMarkAt(p[i..], k);
    }
  }

  /** A placeholder occurs in a text exactly when it occurs in one of its holes. */
  lemma {:induction false} MarkIsInHole(t: Template, k: string)
    requires WellMade(t) && IsToken(k)
    ensures Contains(Flat(t), Mark(k)) <==> HoleHolds(t, Mark(k))
  {
    match t
    case End => PlainHoldsNoMark("", k);
    case Piece(s, rest) =>
      MarkIsInHole(rest, k);
      PlainHoldsNoMark("", k);
      ContainsBeforePiece("", s, Flat(rest), k);
      assert "" + (s + Flat(rest)) == s + Flat(rest);
    case Slot(h, rest) =>
      MarkIsInHole(rest, k);
      ContainsBeforePiece(HoleText(h), rest.text, Flat(rest.rest), k);
      PlainHoldsNoMark("", k);
      ContainsBeforePiece("", rest.text, Flat(rest.rest), k);
      assert "" + (rest.text + Flat(rest.rest)) == Flat(rest);
  }

  predicate Covered(ks: seq<string>, subs: Subs)
  {
    forall i :: 0 <= i < |ks| ==> Get(subs, ks[i]).Some?
  }

  /** What became of some placeholder in ks holds m. */
  predicate SettledValueHolds(ks: seq<string>, subs: Subs, m: string)
  {
    exists i :: 0 <= i < |ks| && Contains(HoleText(SettleHole(Token(ks[i]), subs)), m)
  }

  lemma {:induction false} SettledHoles(t: Template, subs: Subs, m: string)
    requires Unfilled(t)
    ensures HoleHolds(Settle(t, subs), m) <==> SettledValueHolds(Holes(t), subs, m)
  {
    match t
    case End =>
    case Piece(_, rest) => SettledHoles(rest, subs, m);
    case Slot(h, rest) =>
      SettledHoles(rest, subs, m);
      var a, b := [h.name], Holes(rest);
      assert Holes(t) == a + b && (a + b)[0] == h.name && h == Token(h.name);
      assert forall i :: 0 <= i < |b| ==> (a + b)[1 + i] == b[i];
      if SettledValueHolds(a + b, subs, m) {
        var i :| 0 <= i < |a + b| && Contains(HoleText(SettleHole(Token((a + b)[i]), subs)), m);
        assert i > 0 ==> (a + b)[i] == b[i - 1];
      }
  }

  lemma {:induction false} SettleKeepsWellMade(t: Template, subs: Subs)
    requires WellMade(t)
    ensures WellMade(Settle(t, subs))
  {
    match t
    case End =>
    case Piece(_, rest) => SettleKeepsWellMade(rest, subs);
    case Slot(_, rest) => SettleKeepsWellMade(rest, subs);
  }

  /** After all replacements a placeholder is left exactly when what became of a placeholder of
      the template holds it. */
  lemma LeftBehindExactly(t: Template, subs: Subs, k: string)
    requires WellMade(t) && Unfilled(t) && TokenKeys(subs) && IsToken(k)
    ensures Contains(ReplaceEach(Flat(t), subs), Mark(k)) <==> SettledValueHolds(Holes(t), subs, Mark(k))
  {
    SequentialSettles(t, subs);
    SettleKeepsWellMade(t, subs);
    MarkIsInHole(Settle(t, subs), k);
    SettledHoles(t, subs, Mark(k));
  }

  lemma {:induction false} SubstHoles(t: Template, subs: Subs, m: string)
    requires Unfilled(t) && Covered(Holes(t), subs)
    ensures HoleHolds(Subst(t, subs), m) <==> UsedValueHolds(Holes(t), subs, m)
  {
    match t
    case End =>
    case Piece(_, rest) => SubstHoles(rest, subs, m);
    case Slot(h, rest) =>
      var a, b := [h.name], Holes(rest);
      assert Holes(t) == a + b && (a + b)[0] == h.name && a[0] == h.name;
      assert forall i :: 0 <= i < |b| ==> (a + b)[1 + i] == b[i];
      SubstHoles(rest, subs, m);
      UsedSplits(a, b, subs, m);
  }

  /** A placeholder occurs in the simultaneous expansion exactly when a used value holds it. */
  lemma ExpansionHoldsExactly(t: Template, subs: Subs, k: string)
    requires WellMade(t) && Unfilled(t) && Covered(Holes(t), subs) && IsToken(k)
    ensures Contains(Expand(t, subs), Mark(k)) <==> UsedValueHolds(Holes(t), subs, Mark(k))
  {
    SubstKeepsWellMade(t, subs);
    MarkIsInHole(Subst(t, subs), k);
    SubstHoles(t, subs, Mark(k));
  }
}

/** Edits of an agent.next source that do not change what it declares, and what every
    accepted source has in common. */
module AgentEdits {
  import opened Text
  import opened Composer
  import opened AgentDsl
  import opened AgentGrammar
  import opened AgentRoundTrip
  import opened AgentMeaning

  // ----- statements and line numbers -----

  function NonBlank(stmts: seq<Stmt>): (r: seq<Stmt>)
    ensures |r| <= |stmts|
  {
    if stmts == [] then []
    else (if stmts[0].Blank? then [] else [stmts[0]]) + NonBlank(stmts[1..])
  }

  /** Without errors neither blank statements nor line numbers leave a mark. */
  lemma {:induction false} BlanksDoNotMatter(d: Draft, i: nat, j: nat, stmts: seq<Stmt>)
    requires ApplyAll(d, i, stmts).errors == []
    ensures ApplyAll(d, i, stmts) == ApplyAll(d, j, NonBlank(stmts))
    decreases |stmts|
  {
    if stmts != [] {
      var s := stmts[0];
      if Apply(d, i, s).errors != [] {
        ErrorStays(Apply(d, i, s), i + 1, stmts[1..]);
      }
      assert Apply(d, i, s).errors == [];
      if s.Blank? {
        assert NonBlank(stmts) == NonBlank(stmts[1..]);
        BlanksDoNotMatter(d, i + 1, j, stmts[1..]);
      } else {
        assert Apply(d, j, s) == Apply(d, i, s);
        BlanksDoNotMatter(Apply(d, i, s), i + 1, j + 1, stmts[1..]);
        assert NonBlank(stmts)[1..] == NonBlank(stmts[1..]);
      }
    }
  }

  lemma {:induction false} NonBlankErrorFree(d: Draft, i: nat, j: nat, stmts: seq<Stmt>)
    requires ApplyAll(d, j, NonBlank(stmts)).errors == []
    ensures ApplyAll(d, i, stmts).errors == []
    decreases |stmts|
  {
    if stmts != [] {
      var s := stmts[0];
      if s.Blank? {
        assert NonBlank(stmts) == NonBlank(stmts[1..]);
        NonBlankErrorFree(d, i + 1, j, stmts[1..]);
      } else {
        assert NonBlank(stmts)[0] == s && NonBlank(stmts)[1..] == NonBlank(stmts[1..]);
        if Apply(d, j, s).errors != [] {
          ErrorStays(Apply(d, j, s), j + 1, NonBlank(stmts[1..]));
        }
        assert Apply(d, j, s).errors == [];
        assert Apply(d, i, s) == Apply(d, j, s);
        NonBlankErrorFree(Apply(d, i, s), i + 1, j + 1, stmts[1..]);
      }
    }
  }

  /** A source that parses is determined by its non-blank statements. */
  lemma SameStatementsSameComposite(a: seq<string>, b: seq<string>)
    requires ParseLines(a).composite.Some?
    requires NonBlank(ReadAll(a)) == NonBlank(ReadAll(b))
    ensures ParseLines(b) == ParseLines(a)
  {
    BlanksDoNotMatter(EMPTY_DRAFT, 1, 1, ReadAll(a));
    NonBlankErrorFree(EMPTY_DRAFT, 1, 1, ReadAll(b));
    BlanksDoNotMatter(EMPTY_DRAFT, 1, 1, ReadAll(b));
  }

  // ----- comments, blank lines, indentation -----

  lemma IndentationIsIgnored(w: string, raw: string)
    requires AllSpace(w)
    ensures Code(w + raw) == Code(raw)
  {
    TakePrefix(w, raw);
    DropPrefix(w, TakeWhile(raw, NotHash));
  }

  lemma {:induction false} TakePrefix(w: string, raw: string)
    requires AllSpace(w)
    ensures TakeWhile(w + raw, NotHash) == w + TakeWhile(raw, NotHash)
  {
    if w == "" {
      assert w + raw == raw && w + TakeWhile(raw, NotHash) == TakeWhile(raw, NotHash);
    } else {
      assert IsSpace(w[0]) && (w + raw)[0] == w[0] && (w + raw)[1..] == w[1..] + raw;
      TakePrefix(w[1..], raw);
      assert w == [w[0]] + w[1..];
    }
  }

  lemma {:induction false} DropPrefix(w: string, s: string)
    requires AllSpace(w)
    ensures DropWhile(w + s, IsSpace) == DropWhile(s, IsSpace)
  {
    if w == "" {
      assert w + s == s;
    } else {
      assert IsSpace(w[0]) && (w + s)[0] == w[0] && (w + s)[1..] == w[1..] + s;
      DropPrefix(w[1..], s);
    }
  }

  lemma {:induction false} CommentIsIgnored(raw: string, comment: string)
    ensures TakeWhile(raw + ("#" + comment), NotHash) == TakeWhile(raw, NotHash)
    ensures Code(raw + ("#" + comment)) == Code(raw)
  {
    var t := raw + ("#" + comment);
    if raw == "" {
      assert t[0] == '#';
    } else {
      assert t[0] == raw[0] && t[1..] == raw[1..] + ("#" + comment);
      CommentIsIgnored(raw[1..], comment);
    }
  }

  lemma BlankLineIsBlank(w: string, comment: string)
    requires AllSpace(w)
    ensures Code(w) == "" && Code(w + ("#" + comment)) == ""
  {
    CommentIsIgnored(w, comment);
    IndentationIsIgnored(w, "");
    assert w + "" == w;
  }

  /** `b` is `a` with comments and indentation changed and blank or comment lines added. */
  ghost predicate Decorated(b: seq<string>, a: seq<string>)
    decreases |b|
  {
    if b == [] then a == []
    else (Code(b[0]) == "" && Decorated(b[1..], a))
         || (a != [] && Code(b[0]) == Code(a[0]) && Decorated(b[1..], a[1..]))
  }

  lemma {:induction false} DecoratedStatements(b: seq<string>, a: seq<string>)
    requires Decorated(b, a)
    ensures NonBlank(ReadAll(b)) == NonBlank(ReadAll(a))
    decreases |b|
  {
    if b != [] {
      assert ReadAll(b)[1..] == ReadAll(b[1..]);
      if Code(b[0]) == "" && Decorated(b[1..], a) {
        DecoratedStatements(b[1..], a);
        assert ReadAll(b)[0] == Blank;
      } else {
        assert ReadAll(a)[1..] == ReadAll(a[1..]);
        DecoratedStatements(b[1..], a[1..]);
        assert ReadAll(b)[0] == ReadAll(a)[0];
      }
    }
  }

  /** Whatever ends its lines, a source that parses means the same with comments, blank lines or
      indentation added. */
  lemma DecorationPreservesComposite(t: string, u: string)
    requires Decorated(SplitLines(u), SplitLines(t)) && ParseSpec(t).composite.Some?
    ensures ParseSpec(u) == ParseSpec(t)
  {
    DecoratedStatements(SplitLines(u), SplitLines(t));
    SameStatementsSameComposite(SplitLines(t), SplitLines(u));
  }

  /** Indent a line, append a comment to it, or insert a line of white space and perhaps a
      comment in front of it. */
  datatype Edit =
    | Indent(i: nat, w: string)
    | Append(i: nat, comment: string)
    | Insert(i: nat, w: string, note: Option<string>)

  predicate Applies(e: Edit, lines: seq<string>)
  {
    match e
    case Indent(i, w) => i < |lines| && AllSpace(w)
    case Append(i, _) => i < |lines|
    case Insert(i, w, _) => i <= |lines| && AllSpace(w)
  }

  function WithComment(s: string, comment: Option<string>): (r: string)
  {
    match comment case None => s case Some(c) => s + ("#" + c)
  }

  function Edited(lines: seq<string>, e: Edit): (r: seq<string>)
    requires Applies(e, lines)
  {
    match e
    case Indent(i, w) => lines[i := w + lines[i]]
    case Append(i, comment) => lines[i := WithComment(lines[i], Some(comment))]
    case Insert(i, w, comment) => lines[..i] + [WithComment(w, comment)] + lines[i..]
  }

  lemma {:induction false} DecoratedItself(a: seq<string>)
    ensures Decorated(a, a)
  {
    if a != [] {
      DecoratedItself(a[1..]);
    }
  }

  lemma {:induction false} DecoratedLine(a: seq<string>, i: nat, x: string)
    requires i < |a| && Code(x) == Code(a[i])
    ensures Decorated(a[i := x], a)
  {
    var b := a[i := x];
    if i == 0 {
      DecoratedItself(a[1..]);
      assert b[1..] == a[1..];
    } else {
      DecoratedLine(a[1..], i - 1, x);
      assert b[1..] == a[1..][i - 1 := x];
    }
  }

  lemma {:induction false} DecoratedInsert(a: seq<string>, i: nat, x: string)
    requires i <= |a| && Code(x) == ""
    ensures Decorated(a[..i] + [x] + a[i..], a)
  {
    var b := a[..i] + [x] + a[i..];
    if i == 0 {
      DecoratedItself(a);
      assert b[1..] == a;
    } else {
      DecoratedInsert(a[1..], i - 1, x);
      assert b[0] == a[0] && b[1..] == a[1..][..i - 1] + [x] + a[1..][i - 1..];
    }
  }

  lemma {:induction false} DecoratedTransitive(c: seq<string>, b: seq<string>, a: seq<string>)
    requires Decorated(c, b) && Decorated(b, a)
    ensures Decorated(c, a)
    decreases |c|
  {
    if c != [] {
      if Code(c[0]) == "" && Decorated(c[1..], b) {
        DecoratedTransitive(c[1..], b, a);
      } else if Code(b[0]) == "" && Decorated(b[1..], a) {
        DecoratedTransitive(c[1..], b[1..], a);
      } else {
        DecoratedTransitive(c[1..], b[1..], a[1..]);
      }
    }
  }

  lemma EditDecorates(lines: seq<string>, e: Edit)
    requires Applies(e, lines)
    ensures Decorated(Edited(lines, e), lines)
  {
    match e
    case Indent(i, w) =>
      IndentationIsIgnored(w, lines[i]);
      DecoratedLine(lines, i, w + lines[i]);
    case Append(i, comment) =>
      CommentIsIgnored(lines[i], comment);
      DecoratedLine(lines, i, WithComment(lines[i], Some(comment)));
    case Insert(i, w, comment) =>
      BlankLineIsBlank(w, if comment.Some? then comment.value else "");
      DecoratedInsert(lines, i, WithComment(w, comment));
  }

  /** Any number of edits, one after the other, turns a into b. */
  ghost predicate Leads(a: seq<string>, edits: seq<Edit>, b: seq<string>)
    decreases |edits|
  {
    if edits == [] then a == b
    else Applies(edits[0], a) && Leads(Edited(a, edits[0]), edits[1..], b)
  }

  lemma {:induction false} EditsDecorate(a: seq<string>, edits: seq<Edit>, b: seq<string>)
    requires Leads(a, edits, b)
    ensures Decorated(b, a)
    decreases |edits|
  {
    if edits == [] {
      DecoratedItself(a);
    } else {
      EditDecorates(a, edits[0]);
      EditsDecorate(Edited(a, edits[0]), edits[1..], b);
      DecoratedTransitive(b, Edited(a, edits[0]), a);
    }
  }

  /** Any number of such edits leaves the meaning of a source that parses unchanged. */
  lemma EditsPreserveComposite(t: string, edits: seq<Edit>, u: string)
    requires Leads(SplitLines(t), edits, SplitLines(u)) && ParseSpec(t).composite.Some?
    ensures ParseSpec(u) == ParseSpec(t)
  {
    EditsDecorate(SplitLines(t), edits, SplitLines(u));
    DecorationPreservesComposite(t, u);
  }

  // ----- reordering -----

  /** Different kinds of statements set different parts of the draft. */
  predicate DifferentKinds(a: Stmt, b: Stmt)
  {
    !(a.Agent? && b.Agent?) && !(a.Description? && b.Description?) && !(a.Input? && b.Input?)
    && !(a.StepStmt? && b.StepStmt?) && !(a.Output? && b.Output?)
  }

  lemma SwapStatements(d: Draft, i: nat, pre: seq<Stmt>, a: Stmt, b: Stmt, post: seq<Stmt>)
    requires DifferentKinds(a, b)
    requires ApplyAll(d, i, pre + ([a] + [b]) + post).errors == []
    ensures ApplyAll(d, i, pre + ([b] + [a]) + post) == ApplyAll(d, i, pre + ([a] + [b]) + post)
  {
    var d0 := ApplyAll(d, i, pre);
    var k := i + |pre|;
    ApplyAround(d, i, pre, a, b, post);
    ApplyAround(d, i, pre, b, a, post);
    var both := Apply(Apply(d0, k, a), k + 1, b);
    if both.errors != [] {
      ErrorStays(both, k + 2, post);
    }
    ApplyCommutes(d0, k, a, b);
  }

  lemma ApplyAround(d: Draft, i: nat, pre: seq<Stmt>, a: Stmt, b: Stmt, post: seq<Stmt>)
    ensures var d0 := ApplyAll(d, i, pre);
            var k := i + |pre|;
            ApplyAll(d, i, pre + ([a] + [b]) + post) == ApplyAll(Apply(Apply(d0, k, a), k + 1, b), k + 2, post)
  {
    var d0 := ApplyAll(d, i, pre);
    var k := i + |pre|;
    ApplyAppend(d, i, pre + ([a] + [b]), post);
    ApplyAppend(d, i, pre, [a] + [b]);
    ApplyAppend(d0, k, [a], [b]);
    SingleStatement(d0, k, a);
    SingleStatement(Apply(d0, k, a), k + 1, b);
  }

  lemma ApplyCommutes(d: Draft, k: nat, a: Stmt, b: Stmt)
    requires DifferentKinds(a, b) && Apply(Apply(d, k, a), k + 1, b).errors == []
    ensures Apply(Apply(d, k, b), k + 1, a) == Apply(Apply(d, k, a), k + 1, b)
  {}

  /** Swapping adjacent lines with statements of different kinds changes nothing. */
  lemma SwapPreservesComposite(t: string, u: string, pre: seq<string>, x: string, y: string, post: seq<string>)
    requires SplitLines(t) == pre + ([x] + [y]) + post && SplitLines(u) == pre + ([y] + [x]) + post
    requires DifferentKinds(Read(Code(x)), Read(Code(y))) && ParseSpec(t).composite.Some?
    ensures ParseSpec(u) == ParseSpec(t)
  {
    ReadAround(pre, x, y, post);
    ReadAround(pre, y, x, post);
    SwapStatements(EMPTY_DRAFT, 1, ReadAll(pre), Read(Code(x)), Read(Code(y)), ReadAll(post));
  }

  lemma ReadAround(pre: seq<string>, x: string, y: string, post: seq<string>)
    ensures ReadAll(pre + ([x] + [y]) + post) == ReadAll(pre) + ([Read(Code(x))] + [Read(Code(y))]) + ReadAll(post)
  {
    ReadConcat([x], [y]);
    ReadConcat(pre, [x] + [y]);
    ReadConcat(pre + ([x] + [y]), post);
    assert ReadAll([x]) == [Read(Code(x))] && ReadAll([y]) == [Read(Code(y))];
  }
}

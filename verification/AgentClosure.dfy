/** Every source the parser accepts denotes a composite of the language, so that rendering it
    and parsing again loses nothing. */
module AgentClosure {
  import opened Text
  import opened Composer
  import opened AgentDsl
  import opened AgentGrammar
  import opened AgentRoundTrip

  // ----- clean text stays clean -----

  lemma {:induction false} DropWhileClean(s: string, p: char -> bool)
    requires Clean(s)
    ensures Clean(DropWhile(s, p)) && (DropWhile(s, p) == "" || !p(DropWhile(s, p)[0]))
  {
    if s != "" && p(s[0]) {
      DropWhileClean(s[1..], p);
    }
  }

  lemma {:induction false} DropTrailingClean(s: string, p: char -> bool)
    requires Clean(s) && (s == "" || !p(s[0]))
    ensures var r := DropTrailing(s, p); Clean(r) && (r == "" || (!p(r[0]) && !p(r[|r| - 1])))
  {
    if s != "" && p(s[|s| - 1]) {
      DropTrailingClean(s[..|s| - 1], p);
    }
  }

  lemma StripClean(s: string, p: char -> bool)
    requires Clean(s)
    ensures var r := Strip(s, p); Clean(r) && (r == "" || (!p(r[0]) && !p(r[|r| - 1])))
  {
    DropWhileClean(s, p);
    DropTrailingClean(DropWhile(s, p), p);
  }

  lemma CodeIsClean(raw: string)
    requires forall i :: 0 <= i < |raw| ==> InLine(raw[i])
    ensures Clean(Code(raw))
  {
    var t := TakeWhile(raw, NotHash);
    ScanSplits(raw, NotHash);
    forall i | 0 <= i < |t| ensures NotHash(t[i]) && InLine(t[i]) {
      assert raw[i] == t[i];
    }
    StripClean(t, IsSpace);
  }

  // ----- statements -----

  predicate GoodStmt(s: Stmt)
  {
    match s
    case Description(t) => PlainDescription(t)
    case Input(field, _, t) => IsName(field) && IsJsonType(t)
    case StepStmt(st) => WellFormedStep(st)
    case Output(k, ref) => IsName(k) && IsRef(ref)
    case _ => true
  }

  lemma ScanArgSound(s: string)
    requires ScanArg(s).Arg?
    ensures IsName(ScanArg(s).key) && IsRef(ScanArg(s).ref)
  {
    ArgSound(s);
  }

  lemma {:induction false} FindArgsSound(s: string)
    ensures NamesToRefs(FindArgs(s))
    decreases |s|
  {
    if s != "" {
      match ScanArg(s)
      case Arg(k, v, rest) =>
        ScanArgSound(s);
        FindArgsSound(rest);
      case NoArg => FindArgsSound(s[1..]);
    }
  }

  /** Putting a pair keeps keys unique and adds nothing but that pair. */
  lemma {:induction false} PutKeeps(d: Wiring, k: string, v: string)
    requires UniqueKeys(d)
    ensures UniqueKeys(Put(d, k, v))
    ensures forall i :: 0 <= i < |Put(d, k, v)| ==> Put(d, k, v)[i] == (k, v) || Put(d, k, v)[i] in d
  {
    if d != [] && d[0].0 != k {
      PutKeeps(d[1..], k, v);
      var t := Put(d[1..], k, v);
      forall i | 0 <= i < |t| ensures t[i].0 != d[0].0 {
        if t[i] != (k, v) {
          assert t[i] in d[1..];
          var j :| 0 <= j < |d[1..]| && d[1..][j] == t[i];
          assert d[j + 1] == t[i];
        }
      }
    }
  }

  lemma {:induction false} PutAllKeeps(d: Wiring, pairs: Wiring)
    requires UniqueKeys(d) && NamesToRefs(d) && NamesToRefs(pairs)
    ensures UniqueKeys(PutAll(d, pairs)) && NamesToRefs(PutAll(d, pairs))
    decreases |pairs|
  {
    if pairs != [] {
      PutKeeps(d, pairs[0].0, pairs[0].1);
      PutAllKeeps(Put(d, pairs[0].0, pairs[0].1), pairs[1..]);
    }
  }

  lemma StepStmtIsGood(s: string)
    requires MatchStep(s).Some?
    ensures WellFormedStep(MatchStep(s).value)
  {
    StepSound(s);
    var name, p: CallParts, w1, w2, w3, w4 :|
      p.CallParts? && StepText(s, name, p, w1, w2, w3, w4) && MatchStep(s).value == StepOf(name, p);
    FindArgsSound(p.args);
    PutAllKeeps([], FindArgs(p.args));
  }

  lemma InputStmtIsGood(line: string, s: string)
    ensures GoodStmt(ReadInput(line, MatchInput(s)))
  {
    if MatchInput(s).InputParts? {
      InputSound(s);
    }
  }

  lemma OutputStmtIsGood(line: string, s: string)
    ensures GoodStmt(ReadOutput(line, MatchOutput(s)))
  {
    if MatchOutput(s).OutputParts? {
      OutputSound(s);
    }
  }

  lemma DescriptionIsGood(s: string)
    requires Clean(s)
    ensures PlainDescription(Strip(Strip(s, IsSpace), IsQuote))
  {
    StripClean(s, IsSpace);
    StripClean(Strip(s, IsSpace), IsQuote);
  }

  lemma ReadIsGood(line: string)
    requires Clean(line)
    ensures GoodStmt(Read(line))
  {
    if line == "" || StartsWith(line, "agent ") {
    } else if StartsWith(line, "description") {
      DescriptionIsGood(line[11..]);
    } else if StartsWith(line, "input ") {
      InputStmtIsGood(line, line[5..]);
    } else if StartsWith(line, "step ") {
      StepReadIsGood(line, line[4..]);
    } else if StartsWith(line, "output ") {
      OutputStmtIsGood(line, line[6..]);
    }
  }

  lemma StepReadIsGood(line: string, s: string)
    ensures GoodStmt(ReadStep(line, MatchStep(s)))
  {
    if MatchStep(s).Some? {
      StepStmtIsGood(s);
    }
  }

  // ----- the draft -----

  predicate GoodDraft(d: Draft)
  {
    && (d.errors == [] && d.name != "" ==> IsName(d.name)) && PlainDescription(d.description)
    && NamesToTypes(d.props) && UniqueKeys(d.props)
    && (forall i :: 0 <= i < |d.steps| ==> WellFormedStep(d.steps[i]))
    && NamesToRefs(d.output) && UniqueKeys(d.output)
  }

  lemma ApplyKeepsGood(d: Draft, i: nat, s: Stmt)
    requires GoodDraft(d) && GoodStmt(s)
    ensures GoodDraft(Apply(d, i, s))
  {
    match s
    case Input(field, _, t) => PutKeeps(d.props, field, t);
    case Output(k, ref) => PutKeeps(d.output, k, ref);
    case _ =>
  }

  lemma {:induction false} ApplyAllKeepsGood(d: Draft, i: nat, stmts: seq<Stmt>)
    requires GoodDraft(d) && forall j :: 0 <= j < |stmts| ==> GoodStmt(stmts[j])
    ensures GoodDraft(ApplyAll(d, i, stmts))
    decreases |stmts|
  {
    if stmts != [] {
      ApplyKeepsGood(d, i, stmts[0]);
      ApplyAllKeepsGood(Apply(d, i, stmts[0]), i + 1, stmts[1..]);
    }
  }

  lemma {:induction false} SplitLinesInLine(text: string)
    ensures AllInLine(SplitLines(text))
    decreases |text|
  {
    if text != "" {
      ScanSplits(text, InLine);
      var rest := DropWhile(text, InLine);
      if rest != "" {
        if |rest| >= 2 && rest[0] == '\r' && rest[1] == '\n' {
          SplitLinesInLine(rest[2..]);
        } else {
          SplitLinesInLine(rest[1..]);
        }
      }
    }
  }

  /** Whatever text is accepted, the composite is expressible; rendering it and parsing again
      gives its normal form, which is the composite itself exactly when its required list names
      each required field once, in declaration order. */
  lemma AcceptedRoundTrips(text: string)
    requires ParseSpec(text).composite.Some?
    ensures var c := ParseSpec(text).composite.value;
            && Expressible(c)
            && ParseSpec(Render(c)) == Parsed(Some(Normal(c)), [])
            && (ParseSpec(Render(c)) == ParseSpec(text)
                <==> RequiredOf(c.schema.properties, c.schema.required) == c.schema.required)
  {
    var lines := SplitLines(text);
    SplitLinesInLine(text);
    forall i | 0 <= i < |lines| ensures GoodStmt(ReadAll(lines)[i]) {
      CodeIsClean(lines[i]);
      ReadIsGood(Code(lines[i]));
    }
    assert GoodDraft(EMPTY_DRAFT);
    ApplyAllKeepsGood(EMPTY_DRAFT, 1, ReadAll(lines));
    ParseRenderNormal(ParseSpec(text).composite.value);
  }
}

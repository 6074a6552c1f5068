/** Which agent.next texts are accepted, what they mean and what is reported about the others: the parser
    against the forms of its statements. */
module AgentMeaning {
  import opened Text
  import opened Composer
  import opened AgentDsl
  import opened AgentGrammar
  import opened AgentRoundTrip

  // ----- characters -----

  /** Names are made of ASCII letters, digits, `_` and `-`, references may also hold `.`; neither
      starts with a digit, a dash or a dot. */
  lemma NameCharacters(c: char)
    ensures var n := c as int;
            var letter, digit := 65 <= n <= 90 || 97 <= n <= 122 || n == 95, 48 <= n <= 57;
            && (IsName([c]) <==> letter) && (IsRef([c]) <==> letter)
            && (IsName(['x', c]) <==> letter || digit || n == 45)
            && (IsRef(['x', c]) <==> letter || digit || n == 45 || n == 46)
  {
    assert ['x', c][0] == 'x' && ['x', c][1] == c && [c][0] == c;
  }

  // ----- lines -----

  predicate IsBreak(b: string)
  {
    b == "\r\n" || (|b| == 1 && LineBreak(b[0]))
  }

  /** A line ends at its first line break, where `\r\n` is one. */
  lemma LinesExactly(line: string, b: string, rest: string)
    requires All(line, InLine) && IsBreak(b) && !(b == "\r" && StartsWith(rest, "\n"))
    ensures SplitLines(line + (b + rest)) == [line] + SplitLines(rest)
    ensures SplitLines(line) == if line == "" then [] else [line]
  {
    var text := line + (b + rest);
    ScanRun(line, b + rest, InLine);
    ScanRun(line, "", InLine);
    assert line + "" == line;
    if b == "\r\n" {
      assert (b + rest)[2..] == rest && (b + rest)[0] == '\r' && (b + rest)[1] == '\n';
    } else {
      assert (b + rest)[1..] == rest && (b + rest)[0] == b[0];
      if b[0] == '\r' && rest != "" {
        assert b == "\r" && (b + rest)[1] == rest[0];
        assert rest[..1] == [rest[0]];
      }
    }
  }

  /** raw is code between white space, perhaps followed by a comment. */
  ghost predicate CodeForm(raw: string, code: string)
  {
    exists before, after :: && raw == before + after && All(before, NotHash) && (after == "" || after[0] == '#')
                            && Padded(before, code, IsSpace)
  }

  lemma CodeExactly(raw: string, code: string)
    ensures Code(raw) == code <==> CodeForm(raw, code)
  {
    if Code(raw) == code {
      ScanSplits(raw, NotHash);
      StripExactly(TakeWhile(raw, NotHash), code, IsSpace);
      assert raw == TakeWhile(raw, NotHash) + DropWhile(raw, NotHash);
    }
    if before, after :| && raw == before + after && All(before, NotHash) && (after == "" || after[0] == '#')
                        && Padded(before, code, IsSpace)
    {
      ScanRun(before, after, NotHash);
      StripExactly(before, code, IsSpace);
    }
  }

  // ----- the forms of a statement -----

  /** The type names an input may use, with what they declare. */
  const TYPES: map<string, string> := map[
    "string" := "string", "str" := "string", "text" := "string", "number" := "number", "float" := "number",
    "integer" := "integer", "int" := "integer", "bool" := "boolean", "boolean" := "boolean"]

  ghost predicate AgentForm(line: string, name: string)
  {
    IsName(name) && exists s :: line == "agent " + s && Padded(s, name, IsSpace)
  }

  /** White space, then quotes, around the text. */
  ghost predicate DescriptionForm(line: string, text: string)
  {
    exists s, quoted :: line == "description" + s && Padded(s, quoted, IsSpace) && Padded(quoted, text, IsQuote)
  }

  ghost predicate InputForm(line: string, p: InputParts)
    requires p.InputParts?
  {
    exists s, w1, w2, w3 :: line == "input" + s && StartsWith(s, " ") && InputText(s, p, w1, w2, w3)
  }

  ghost predicate StepForm(line: string, step: Step)
  {
    exists s, name, p: CallParts, w1, w2, w3, w4 ::
      line == "step" + s && StartsWith(s, " ") && p.CallParts? && StepText(s, name, p, w1, w2, w3, w4)
      && step == StepOf(name, p)
  }

  ghost predicate OutputForm(line: string, p: OutputParts)
    requires p.OutputParts?
  {
    exists s, w1, w2, w3 :: line == "output" + s && StartsWith(s, " ") && OutputText(s, p, w1, w2, w3)
  }

  /** What a line without comment and surrounding white space says. */
  ghost predicate Says(line: string, s: Stmt)
  {
    match s
    case Blank => line == ""
    case Agent(name) => AgentForm(line, name)
    case Description(text) => DescriptionForm(line, text)
    case Input(field, optional, t) =>
      exists typ :: typ in TYPES && TYPES[typ] == t && InputForm(line, InputParts(field, optional, typ))
    case StepStmt(step) => StepForm(line, step)
    case Output(k, ref) => OutputForm(line, OutputParts(k, ref))
    case Wrong(_, _) => false
  }

  ghost predicate Meaningful(line: string)
  {
    exists s :: Says(line, s)
  }

  predicate Keyword(line: string)
  {
    || StartsWith(line, "agent ") || StartsWith(line, "description") || StartsWith(line, "input ")
    || StartsWith(line, "step ") || StartsWith(line, "output ")
  }

  /** What is wrong with a line, and the text the report quotes. */
  ghost predicate Blames(line: string, problem: Problem, detail: string)
  {
    match problem
    case BadName => !IsName(detail) && exists s :: line == "agent " + s && Padded(s, detail, IsSpace)
    case BadInput =>
      detail == line && StartsWith(line, "input ") && forall p: InputParts :: p.InputParts? ==> !InputForm(line, p)
    case UnknownType =>
      detail !in TYPES && exists field, optional :: InputForm(line, InputParts(field, optional, detail))
    case BadStep => detail == line && StartsWith(line, "step ") && forall st :: !StepForm(line, st)
    case BadOutput =>
      detail == line && StartsWith(line, "output ") && forall p: OutputParts :: p.OutputParts? ==> !OutputForm(line, p)
    case Unrecognized => detail == line && line != "" && !Keyword(line)
  }

  // ----- reading a line -----

  lemma KeywordLetter(line: string, k: string)
    requires k != "" && StartsWith(line, k)
    ensures line != "" && line[0] == k[0]
  {
    assert line[..|k|][0] == k[0];
  }

  /** The keywords start with different letters, so a line has at most one. */
  lemma ReadByKeyword(line: string)
    ensures StartsWith(line, "agent ") ==> Read(line) == Agent(Strip(line[6..], IsSpace))
    ensures StartsWith(line, "description") ==> Read(line) == Description(Strip(Strip(line[11..], IsSpace), IsQuote))
    ensures StartsWith(line, "input ") ==> Read(line) == ReadInput(line, MatchInput(line[5..]))
    ensures StartsWith(line, "step ") ==> Read(line) == ReadStep(line, MatchStep(line[4..]))
    ensures StartsWith(line, "output ") ==> Read(line) == ReadOutput(line, MatchOutput(line[6..]))
    ensures !Keyword(line) ==> Read(line) == if line == "" then Blank else Wrong(Unrecognized, line)
  {
    if StartsWith(line, "agent ") {
      KeywordLetter(line, "agent ");
    }
    if StartsWith(line, "description") {
      KeywordLetter(line, "description");
    }
    if StartsWith(line, "input ") {
      KeywordLetter(line, "input ");
    }
    if StartsWith(line, "step ") {
      KeywordLetter(line, "step ");
    }
    if StartsWith(line, "output ") {
      KeywordLetter(line, "output ");
    }
  }

  /** A keyword with its blank, seen from both sides of the blank. */
  lemma AfterKeyword(line: string, k: string, s: string)
    ensures line == k + s ==> StartsWith(line, k) && line[|k|..] == s
    ensures StartsWith(line, k) ==> line == k + line[|k|..]
    ensures line == k + s && StartsWith(s, " ") ==> StartsWith(line, k + " ")
    ensures StartsWith(line, k + " ") ==> line == k + line[|k|..] && StartsWith(line[|k|..], " ")
  {
    if StartsWith(line, k + " ") {
      assert line[..|k|] == (k + " ")[..|k|] == k;
      assert line[|k|..][..1] == line[..|k| + 1][|k|..] == " ";
    }
    if line == k + s && StartsWith(s, " ") {
      assert line[..|k| + 1] == k + s[..1];
    }
  }

  lemma InputFormExactly(line: string, p: InputParts)
    requires p.InputParts?
    ensures InputForm(line, p) <==> StartsWith(line, "input ") && MatchInput(line[5..]) == p
  {
    assert "input" + " " == "input ";
    if InputForm(line, p) {
      var s, w1, w2, w3 :| line == "input" + s && StartsWith(s, " ") && InputText(s, p, w1, w2, w3);
      AfterKeyword(line, "input", s);
      InputComplete(s, p, w1, w2, w3);
    }
    if StartsWith(line, "input ") && MatchInput(line[5..]) == p {
      AfterKeyword(line, "input", line[5..]);
      InputSound(line[5..]);
      var w1, w2, w3 :| InputText(line[5..], p, w1, w2, w3);
      assert line == "input" + line[5..];
    }
  }

  lemma OutputFormExactly(line: string, p: OutputParts)
    requires p.OutputParts?
    ensures OutputForm(line, p) <==> StartsWith(line, "output ") && MatchOutput(line[6..]) == p
  {
    assert "output" + " " == "output ";
    if OutputForm(line, p) {
      var s, w1, w2, w3 :| line == "output" + s && StartsWith(s, " ") && OutputText(s, p, w1, w2, w3);
      AfterKeyword(line, "output", s);
      OutputComplete(s, p, w1, w2, w3);
    }
    if StartsWith(line, "output ") && MatchOutput(line[6..]) == p {
      AfterKeyword(line, "output", line[6..]);
      OutputSound(line[6..]);
      var w1, w2, w3 :| OutputText(line[6..], p, w1, w2, w3);
      assert line == "output" + line[6..];
    }
  }

  lemma StepFormExactly(line: string, st: Step)
    ensures StepForm(line, st) <==> StartsWith(line, "step ") && MatchStep(line[4..]) == Some(st)
  {
    assert "step" + " " == "step ";
    if StepForm(line, st) {
      var s, name, p: CallParts, w1, w2, w3, w4 :|
        line == "step" + s && StartsWith(s, " ") && p.CallParts? && StepText(s, name, p, w1, w2, w3, w4)
        && st == StepOf(name, p);
      AfterKeyword(line, "step", s);
      StepComplete(s, name, p, w1, w2, w3, w4);
    }
    if StartsWith(line, "step ") && MatchStep(line[4..]) == Some(st) {
      AfterKeyword(line, "step", line[4..]);
      StepSound(line[4..]);
      var name, p: CallParts, w1, w2, w3, w4 :|
        p.CallParts? && StepText(line[4..], name, p, w1, w2, w3, w4) && MatchStep(line[4..]).value == StepOf(name, p);
      assert line == "step" + line[4..];
    }
  }

  lemma AgentTextExactly(line: string, name: string)
    ensures (exists s :: line == "agent " + s && Padded(s, name, IsSpace))
       <==> StartsWith(line, "agent ") && Strip(line[6..], IsSpace) == name
  {
    if s :| line == "agent " + s && Padded(s, name, IsSpace) {
      AfterKeyword(line, "agent ", s);
      StripExactly(s, name, IsSpace);
    }
    if StartsWith(line, "agent ") && Strip(line[6..], IsSpace) == name {
      AfterKeyword(line, "agent ", line[6..]);
      StripExactly(line[6..], name, IsSpace);
    }
  }

  lemma DescriptionFormExactly(line: string, text: string)
    ensures DescriptionForm(line, text)
       <==> StartsWith(line, "description") && Strip(Strip(line[11..], IsSpace), IsQuote) == text
  {
    if s, quoted :| line == "description" + s && Padded(s, quoted, IsSpace) && Padded(quoted, text, IsQuote) {
      AfterKeyword(line, "description", s);
      StripExactly(s, quoted, IsSpace);
      StripExactly(quoted, text, IsQuote);
    }
    if StartsWith(line, "description") && Strip(Strip(line[11..], IsSpace), IsQuote) == text {
      AfterKeyword(line, "description", line[11..]);
      var quoted := Strip(line[11..], IsSpace);
      StripExactly(line[11..], quoted, IsSpace);
      StripExactly(quoted, text, IsQuote);
    }
  }

  lemma TypesExactly(t: string)
    ensures JsonType(t) == if t in TYPES then Some(TYPES[t]) else None
  {}

  /** What the parser finds at fault in a statement it has read. */
  function FaultOf(s: Stmt): (r: Option<(Problem, string)>)
  {
    match s
    case Wrong(problem, detail) => Some((problem, detail))
    case Agent(name) => if IsName(name) then None else Some((BadName, name))
    case _ => None
  }

  /** The parser reads a statement out of a line exactly when the line says it. */
  lemma ReadExactly(line: string, s: Stmt)
    ensures Read(line) == s && FaultOf(s) == None <==> Says(line, s)
  {
    ReadByKeyword(line);
    match s
    case Blank =>
    case Agent(name) => AgentTextExactly(line, name);
    case Description(text) => DescriptionFormExactly(line, text);
    case Input(field, optional, t) => InputStmtExactly(line, field, optional, t);
    case StepStmt(step) => StepFormExactly(line, step);
    case Output(k, ref) => OutputFormExactly(line, OutputParts(k, ref));
    case Wrong(_, _) =>
  }

  lemma InputStmtExactly(line: string, field: string, optional: bool, t: string)
    ensures Read(line) == Input(field, optional, t)
       <==> exists typ :: typ in TYPES && TYPES[typ] == t && InputForm(line, InputParts(field, optional, typ))
  {
    ReadByKeyword(line);
    if Read(line) == Input(field, optional, t) {
      var p := MatchInput(line[5..]);
      TypesExactly(p.typ);
      InputFormExactly(line, p);
    }
    if typ :| typ in TYPES && TYPES[typ] == t && InputForm(line, InputParts(field, optional, typ)) {
      TypesExactly(typ);
      InputFormExactly(line, InputParts(field, optional, typ));
    }
  }

  /** It finds a line at fault exactly for the reasons of its kind. */
  lemma FaultExactly(line: string, problem: Problem, detail: string)
    ensures FaultOf(Read(line)) == Some((problem, detail)) <==> Blames(line, problem, detail)
  {
    if problem == BadName {
      BadNameExactly(line, detail);
    } else {
      assert FaultOf(Read(line)) == Some((problem, detail)) <==> Read(line) == Wrong(problem, detail);
      WrongExactly(line, problem, detail);
    }
  }

  lemma WrongExactly(line: string, problem: Problem, detail: string)
    requires problem != BadName
    ensures Read(line) == Wrong(problem, detail) <==> Blames(line, problem, detail)
  {
    match problem
    case BadInput => BadInputExactly(line, detail);
    case UnknownType => UnknownTypeExactly(line, detail);
    case BadStep => BadStepExactly(line, detail);
    case BadOutput => BadOutputExactly(line, detail);
    case Unrecognized => ReadByKeyword(line);
  }

  lemma BadNameExactly(line: string, detail: string)
    ensures FaultOf(Read(line)) == Some((BadName, detail)) <==> Blames(line, BadName, detail)
  {
    ReadByKeyword(line);
    AgentTextExactly(line, detail);
  }

  lemma BadInputExactly(line: string, detail: string)
    ensures Read(line) == Wrong(BadInput, detail) <==> Blames(line, BadInput, detail)
  {
    ReadByKeyword(line);
    forall p: InputParts | p.InputParts?
      ensures InputForm(line, p) <==> StartsWith(line, "input ") && MatchInput(line[5..]) == p
    {
      InputFormExactly(line, p);
    }
  }

  lemma UnknownTypeExactly(line: string, detail: string)
    ensures Read(line) == Wrong(UnknownType, detail) <==> Blames(line, UnknownType, detail)
  {
    ReadByKeyword(line);
    TypesExactly(detail);
    if Read(line) == Wrong(UnknownType, detail) {
      InputFormExactly(line, MatchInput(line[5..]));
    }
    if field, optional :| InputForm(line, InputParts(field, optional, detail)) {
      InputFormExactly(line, InputParts(field, optional, detail));
    }
  }

  lemma BadStepExactly(line: string, detail: string)
    ensures Read(line) == Wrong(BadStep, detail) <==> Blames(line, BadStep, detail)
  {
    ReadByKeyword(line);
    forall st ensures StepForm(line, st) <==> StartsWith(line, "step ") && MatchStep(line[4..]) == Some(st) {
      StepFormExactly(line, st);
    }
  }

  lemma BadOutputExactly(line: string, detail: string)
    ensures Read(line) == Wrong(BadOutput, detail) <==> Blames(line, BadOutput, detail)
  {
    ReadByKeyword(line);
    forall p: OutputParts | p.OutputParts?
      ensures OutputForm(line, p) <==> StartsWith(line, "output ") && MatchOutput(line[6..]) == p
    {
      OutputFormExactly(line, p);
    }
  }

  /** Every line says something or is to blame for something, never both. */
  lemma SaysOrBlames(line: string)
    ensures Meaningful(line) <==> !exists problem, detail :: Blames(line, problem, detail)
    ensures Meaningful(line) <==> FaultOf(Read(line)) == None
  {
    var s := Read(line);
    ReadExactly(line, s);
    if FaultOf(s).Some? {
      FaultExactly(line, FaultOf(s).value.0, FaultOf(s).value.1);
      if u :| Says(line, u) {
        ReadExactly(line, u);
      }
    } else {
      assert Says(line, s);
      if problem, detail :| Blames(line, problem, detail) {
        FaultExactly(line, problem, detail);
      }
    }
  }

  // ----- whole texts -----

  lemma {:induction false} ErrorsOfStatements(
    d: Draft, i: nat, stmts: seq<Stmt>, n: nat, problem: Problem, detail: string)
    ensures AtLine(n, problem, detail) in ApplyAll(d, i, stmts).errors
       <==> || AtLine(n, problem, detail) in d.errors
            || (i <= n < i + |stmts| && FaultOf(stmts[n - i]) == Some((problem, detail)))
    decreases |stmts|
  {
    if stmts != [] {
      ErrorsOfStatements(Apply(d, i, stmts[0]), i + 1, stmts[1..], n, problem, detail);
    }
  }

  /** An error is reported for a line exactly when the line's code is to blame for it, with the
      kind of problem and the quoted text. */
  lemma ReportsExactly(text: string, n: nat, problem: Problem, detail: string)
    ensures var errors, lines := ParseSpec(text).errors, SplitLines(text);
            (AtLine(n, problem, detail) in errors <==> 1 <= n <= |lines| && Blames(Code(lines[n - 1]), problem, detail))
  {
    var lines := SplitLines(text);
    var stmts := ReadAll(lines);
    ErrorsOfStatements(EMPTY_DRAFT, 1, stmts, n, problem, detail);
    if 1 <= n <= |lines| {
      assert stmts[n - 1] == Read(Code(lines[n - 1]));
      FaultExactly(Code(lines[n - 1]), problem, detail);
    }
  }

  /** The last agent statement names the agent; steps accumulate. */
  lemma {:induction false} NameAndSteps(d: Draft, i: nat, stmts: seq<Stmt>)
    requires forall j :: 0 <= j < |stmts| && stmts[j].Agent? ==> stmts[j].name != ""
    ensures ApplyAll(d, i, stmts).name == "" <==> d.name == "" && forall j :: 0 <= j < |stmts| ==> !stmts[j].Agent?
    ensures ApplyAll(d, i, stmts).steps == [] <==> d.steps == [] && forall j :: 0 <= j < |stmts| ==> !stmts[j].StepStmt?
    decreases |stmts|
  {
    if stmts != [] {
      var rest := stmts[1..];
      assert forall j :: 0 <= j < |rest| ==> rest[j] == stmts[j + 1];
      NameAndSteps(Apply(d, i, stmts[0]), i + 1, rest);
      assert forall j :: 0 < j < |stmts| ==> stmts[j] == rest[j - 1];
    }
  }

  /** A line of code is stripped, so something follows the blank after `agent`. */
  lemma AgentIsNamed(raw: string)
    requires StartsWith(Code(raw), "agent ")
    ensures Strip(Code(raw)[6..], IsSpace) != ""
  {
    var line := Code(raw);
    var w1, w2 := StripSound(TakeWhile(raw, NotHash), IsSpace);
    assert !IsSpace(line[|line| - 1]);
    assert line[5] == line[..6][5] == ' ';
    StripOfSpace(line[6..]);
    assert line[6..][|line| - 7] == line[|line| - 1];
  }

  lemma StripOfSpace(s: string)
    ensures Strip(s, IsSpace) == "" ==> AllSpace(s)
  {
    var w1, w2 := StripSound(s, IsSpace);
  }

  /** Some line of code starts an agent declaration. */
  predicate DeclaresAgent(lines: seq<string>)
  {
    exists i :: 0 <= i < |lines| && StartsWith(Code(lines[i]), "agent ")
  }

  ghost predicate HasStep(lines: seq<string>)
  {
    exists i, st :: 0 <= i < |lines| && StepForm(Code(lines[i]), st)
  }

  ghost predicate EveryLineSays(lines: seq<string>)
  {
    forall i :: 0 <= i < |lines| ==> Meaningful(Code(lines[i]))
  }

  lemma DraftOfLines(lines: seq<string>)
    ensures var d := ApplyAll(EMPTY_DRAFT, 1, ReadAll(lines));
            (d.name == "" <==> !DeclaresAgent(lines)) && (d.steps == [] <==> !HasStep(lines))
  {
    var stmts := ReadAll(lines);
    forall i | 0 <= i < |lines|
      ensures stmts[i].Agent? <==> StartsWith(Code(lines[i]), "agent ")
      ensures stmts[i].Agent? ==> stmts[i].name != ""
      ensures stmts[i].StepStmt? <==> exists st :: StepForm(Code(lines[i]), st)
    {
      LineOf(lines[i]);
    }
    NameAndSteps(EMPTY_DRAFT, 1, stmts);
  }

  lemma LineOf(raw: string)
    ensures var s := Read(Code(raw));
            && (s.Agent? <==> StartsWith(Code(raw), "agent ")) && (s.Agent? ==> s.name != "")
            && (s.StepStmt? <==> exists st :: StepForm(Code(raw), st))
  {
    var line := Code(raw);
    ReadByKeyword(line);
    if StartsWith(line, "agent ") {
      AgentIsNamed(raw);
    }
    if Read(line).StepStmt? {
      ReadExactly(line, Read(line));
    }
    if st :| StepForm(line, st) {
      ReadExactly(line, StepStmt(st));
    }
  }

  lemma {:induction false} NoFaultNoError(d: Draft, i: nat, stmts: seq<Stmt>)
    requires d.errors == []
    ensures ApplyAll(d, i, stmts).errors == [] <==> forall j :: 0 <= j < |stmts| ==> FaultOf(stmts[j]) == None
    decreases |stmts|
  {
    if stmts != [] {
      var rest := stmts[1..];
      assert forall j :: 0 <= j < |rest| ==> rest[j] == stmts[j + 1];
      assert forall j :: 0 < j < |stmts| ==> stmts[j] == rest[j - 1];
      if FaultOf(stmts[0]) == None {
        NoFaultNoError(Apply(d, i, stmts[0]), i + 1, rest);
      } else {
        ErrorStays(Apply(d, i, stmts[0]), i + 1, rest);
      }
    }
  }

  lemma {:induction false} ErrorStays(d: Draft, i: nat, stmts: seq<Stmt>)
    requires d.errors != []
    ensures ApplyAll(d, i, stmts).errors != []
    decreases |stmts|
  {
    if stmts != [] {
      ErrorStays(Apply(d, i, stmts[0]), i + 1, stmts[1..]);
    }
  }

  lemma FaultlessLines(lines: seq<string>)
    ensures ApplyAll(EMPTY_DRAFT, 1, ReadAll(lines)).errors == [] <==> EveryLineSays(lines)
  {
    var stmts := ReadAll(lines);
    NoFaultNoError(EMPTY_DRAFT, 1, stmts);
    forall i | 0 <= i < |lines| ensures FaultOf(stmts[i]) == None <==> Meaningful(Code(lines[i])) {
      SaysOrBlames(Code(lines[i]));
    }
  }

  /** A composite comes back exactly when every line has one of the forms, an agent is declared and
      there is a step; the two reports without a line number are made exactly when the declaration,
      or only a step, is missing. */
  lemma AcceptsExactly(text: string)
    ensures var r, lines := ParseSpec(text), SplitLines(text);
            && (r.composite.Some? <==> EveryLineSays(lines) && DeclaresAgent(lines) && HasStep(lines))
            && (MissingAgent in r.errors <==> !DeclaresAgent(lines))
            && (NeedsStep in r.errors <==> EveryLineSays(lines) && DeclaresAgent(lines) && !HasStep(lines))
  {
    var lines := SplitLines(text);
    DraftOfLines(lines);
    FaultlessLines(lines);
    ApplyNumbers(EMPTY_DRAFT, 1, ReadAll(lines));
  }

  lemma TypesAreNames(typ: string)
    requires typ in TYPES
    ensures IsName(typ)
  {}

  /** `input <name>: <type>` declares what the type name stands for. */
  lemma TypeNamesDeclare(field: string, typ: string, optional: bool)
    requires IsName(field) && typ in TYPES
    ensures var mark := if optional then "?" else "";
            Read("input " + (field + (mark + (": " + typ)))) == Input(field, optional, TYPES[typ])
  {
    var mark := if optional then "?" else "";
    var p := InputParts(field, optional, typ);
    var s := " " + (field + (mark + ("" + (":" + (" " + typ)))));
    var line := "input " + (field + (mark + (": " + typ)));
    TypesAreNames(typ);
    assert InputText(s, p, " ", "", " ");
    assert ": " + typ == "" + (":" + (" " + typ));
    assert line == "input" + s && s[..1] == " ";
    assert InputForm(line, p);
    InputStmtExactly(line, field, optional, TYPES[typ]);
  }

  // ----- what an accepted text means -----

  /** The last declaration of a name or a description counts. */
  function LastName(stmts: seq<Stmt>): (s: string)
  {
    if stmts == [] then ""
    else
      var last := stmts[|stmts| - 1];
      if last.Agent? then last.name else LastName(stmts[..|stmts| - 1])
  }

  function LastText(stmts: seq<Stmt>): (s: string)
  {
    if stmts == [] then ""
    else
      var last := stmts[|stmts| - 1];
      if last.Description? then last.text else LastText(stmts[..|stmts| - 1])
  }

  /** All steps count, in order, and so do all fields declared without a question mark. */
  function StepsIn(stmts: seq<Stmt>): (r: seq<Step>)
  {
    if stmts == [] then []
    else
      var last := stmts[|stmts| - 1];
      StepsIn(stmts[..|stmts| - 1]) + if last.StepStmt? then [last.step] else []
  }

  function RequiredIn(stmts: seq<Stmt>): (r: seq<string>)
  {
    if stmts == [] then []
    else
      var last := stmts[|stmts| - 1];
      RequiredIn(stmts[..|stmts| - 1]) + if last.Input? && !last.optional then [last.field] else []
  }

  /** The last type declared for a field and the last reference given for an output count. */
  function LastType(stmts: seq<Stmt>, field: string): (t: Option<string>)
  {
    if stmts == [] then None
    else
      var last := stmts[|stmts| - 1];
      if last.Input? && last.field == field then Some(last.jsonType) else LastType(stmts[..|stmts| - 1], field)
  }

  function LastOutput(stmts: seq<Stmt>, key: string): (ref: Option<string>)
  {
    if stmts == [] then None
    else
      var last := stmts[|stmts| - 1];
      if last.Output? && last.key == key then Some(last.ref) else LastOutput(stmts[..|stmts| - 1], key)
  }

  function Bound(d: Wiring, k: string): (v: Option<string>)
  {
    if d == [] then None else if d[0].0 == k then Some(d[0].1) else Bound(d[1..], k)
  }

  lemma {:induction false} PutBinds(d: Wiring, k: string, v: string, j: string)
    ensures Bound(Put(d, k, v), j) == if j == k then Some(v) else Bound(d, j)
  {
    if d != [] && d[0].0 != k {
      PutBinds(d[1..], k, v, j);
    }
  }

  ghost predicate DraftMeans(d: Draft, stmts: seq<Stmt>, k: string)
  {
    && d.name == LastName(stmts) && d.description == LastText(stmts)
    && d.steps == StepsIn(stmts) && d.required == RequiredIn(stmts)
    && Bound(d.props, k) == LastType(stmts, k) && Bound(d.output, k) == LastOutput(stmts, k)
  }

  lemma StatementMeans(d: Draft, i: nat, stmts: seq<Stmt>, s: Stmt, k: string)
    requires DraftMeans(d, stmts, k)
    ensures DraftMeans(Apply(d, i, s), stmts + [s], k)
  {
    var all := stmts + [s];
    assert all[|all| - 1] == s && all[..|all| - 1] == stmts;
    match s
    case Input(field, _, t) => PutBinds(d.props, field, t, k);
    case Output(key, ref) => PutBinds(d.output, key, ref, k);
    case _ =>
  }

  lemma {:induction false} StatementsMean(stmts: seq<Stmt>, k: string)
    ensures DraftMeans(ApplyAll(EMPTY_DRAFT, 1, stmts), stmts, k)
    decreases |stmts|
  {
    if stmts != [] {
      var before, s := stmts[..|stmts| - 1], stmts[|stmts| - 1];
      assert stmts == before + [s];
      StatementsMean(before, k);
      ApplyAppend(EMPTY_DRAFT, 1, before, [s]);
      SingleStatement(ApplyAll(EMPTY_DRAFT, 1, before), 1 + |before|, s);
      StatementMeans(ApplyAll(EMPTY_DRAFT, 1, before), 1 + |before|, before, s, k);
    }
  }

  /** The composite is what the statements of the lines say: the last name
      and description, all steps and required fields in order, the last type of each field and
      the last reference of each output. */
  ghost predicate Denotes(stmts: seq<Stmt>, c: Composite)
  {
    && c.name == c.capability == LastName(stmts) && c.description == LastText(stmts)
    && c.steps == StepsIn(stmts) && c.schema.required == RequiredIn(stmts)
    && (forall k :: Bound(c.schema.properties, k) == LastType(stmts, k))
    && (forall k :: Bound(c.output, k) == LastOutput(stmts, k))
  }

  lemma AcceptedMeaning(text: string)
    requires ParseSpec(text).composite.Some?
    ensures exists stmts :: && |stmts| == |SplitLines(text)|
                            && (forall i :: 0 <= i < |stmts| ==> Says(Code(SplitLines(text)[i]), stmts[i]))
                            && Denotes(stmts, ParseSpec(text).composite.value)
  {
    var lines := SplitLines(text);
    var stmts := ReadAll(lines);
    FaultlessLines(lines);
    forall i | 0 <= i < |stmts| ensures Says(Code(lines[i]), stmts[i]) {
      SaysOrBlames(Code(lines[i]));
      ReadExactly(Code(lines[i]), stmts[i]);
    }
    DraftDenotes(stmts, ParseSpec(text).composite.value);
  }

  lemma DraftDenotes(stmts: seq<Stmt>, c: Composite)
    requires Conclude(ApplyAll(EMPTY_DRAFT, 1, stmts)).composite == Some(c)
    ensures Denotes(stmts, c)
  {
    StatementsMean(stmts, "");
    forall k ensures Bound(c.schema.properties, k) == LastType(stmts, k) && Bound(c.output, k) == LastOutput(stmts, k) {
      StatementsMean(stmts, k);
    }
  }
}

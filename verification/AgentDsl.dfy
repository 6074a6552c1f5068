/** The agent.next language (gateway/agentdsl.py): a line-oriented parser that never fails
    but reports, and its statement grammar. */
module AgentDsl {
  import opened Text
  import opened Composer

  // ----- characters, names and references -----

  predicate NameStart(c: char) { 'A' <= c <= 'Z' || 'a' <= c <= 'z' || c == '_' }

  predicate NameChar(c: char) { NameStart(c) || '0' <= c <= '9' || c == '-' }

  predicate RefChar(c: char) { NameChar(c) || c == '.' }

  predicate IsName(s: string)
  {
    s != "" && NameStart(s[0]) && forall i :: 0 <= i < |s| ==> NameChar(s[i])
  }

  predicate IsRef(s: string)
  {
    s != "" && NameStart(s[0]) && forall i :: 0 <= i < |s| ==> RefChar(s[i])
  }

  /** The characters `str.splitlines` breaks at. */
  predicate LineBreak(c: char)
  {
    var n := c as int;
    10 <= n <= 13 || 28 <= n <= 30 || n == 0x85 || n == 0x2028 || n == 0x2029
  }

  predicate InLine(c: char) { !LineBreak(c) }

  predicate NotHash(c: char) { c != '#' }

  predicate IsQuote(c: char) { c == '"' }

  function SplitLines(text: string): (lines: seq<string>)
    decreases |text|
  {
    if text == "" then []
    else
      var line, rest := TakeWhile(text, InLine), DropWhile(text, InLine);
      if rest == "" then [line]
      else if |rest| >= 2 && rest[0] == '\r' && rest[1] == '\n' then [line] + SplitLines(rest[2..])
      else [line] + SplitLines(rest[1..])
  }

  /** A raw line without its comment and surrounding white space. */
  function Code(raw: string): (line: string)
  {
    Strip(TakeWhile(raw, NotHash), IsSpace)
  }

  // ----- scanning -----

  function SkipSpace(s: string): (r: string)
    ensures |r| <= |s|
  {
    DropWhile(s, IsSpace)
  }

  function Expect(s: string, c: char): (r: Option<string>)
    ensures r.Some? ==> |r.value| < |s|
  {
    if s != "" && s[0] == c then Some(s[1..]) else None
  }

  datatype Token = NoToken | Token(text: string, rest: string)

  function ScanName(s: string): (t: Token)
    ensures t.Token? ==> |t.rest| < |s|
  {
    if s != "" && NameStart(s[0]) then Token(TakeWhile(s, NameChar), DropWhile(s[1..], NameChar)) else NoToken
  }

  function ScanRef(s: string): (t: Token)
    ensures t.Token? ==> |t.rest| < |s|
  {
    if s != "" && NameStart(s[0]) then Token(TakeWhile(s, RefChar), DropWhile(s[1..], RefChar)) else NoToken
  }

  /** One `<key>: <ref>` at the front of s. */
  datatype Arg = NoArg | Arg(key: string, ref: string, rest: string)

  function ScanArg(s: string): (a: Arg)
    ensures a.Arg? ==> |a.rest| < |s|
  {
    var k := ScanName(s);
    if k.NoToken? then NoArg
    else
      var colon := Expect(SkipSpace(k.rest), ':');
      if colon.None? then NoArg
      else
        var v := ScanRef(SkipSpace(colon.value));
        if v.NoToken? then NoArg else Arg(k.text, v.text, v.rest)
  }

  /** All non-overlapping arguments from left to right; whatever does not match is skipped. */
  function FindArgs(s: string): (pairs: Wiring)
    decreases |s|
  {
    if s == "" then []
    else match ScanArg(s)
      case Arg(k, v, rest) => [(k, v)] + FindArgs(rest)
      case NoArg => FindArgs(s[1..])
  }

  // ----- ordered dictionaries -----

  /** `d[k] = v`: an existing key keeps its place. */
  function Put(d: Wiring, k: string, v: string): (r: Wiring)
  {
    if d == [] then [(k, v)]
    else if d[0].0 == k then [(k, v)] + d[1..]
    else [d[0]] + Put(d[1..], k, v)
  }

  function PutAll(d: Wiring, pairs: Wiring): (r: Wiring)
    decreases |pairs|
  {
    if pairs == [] then d else PutAll(Put(d, pairs[0].0, pairs[0].1), pairs[1..])
  }

  // ----- statements -----

  datatype Problem = BadName | BadInput | UnknownType | BadStep | BadOutput | Unrecognized

  datatype Stmt =
    | Blank
    | Agent(name: string)
    | Description(text: string)
    | Input(field: string, optional: bool, jsonType: string)
    | StepStmt(step: Step)
    | Output(key: string, ref: string)
    | Wrong(problem: Problem, detail: string)

  function JsonType(t: string): (r: Option<string>)
  {
    if t == "string" || t == "str" || t == "text" then Some("string")
    else if t == "number" || t == "float" then Some("number")
    else if t == "integer" || t == "int" then Some("integer")
    else if t == "bool" || t == "boolean" then Some("boolean")
    else None
  }

  datatype InputParts = NoInput | InputParts(field: string, optional: bool, typ: string)

  /** `input\s+(NAME)(\??)\s*:\s*(NAME)`, after the keyword. */
  function MatchInput(s: string): (r: InputParts)
  {
    var name := ScanName(SkipSpace(s));
    if name.NoToken? then NoInput
    else
      var mark := Expect(name.rest, '?');
      var colon := Expect(SkipSpace(if mark.Some? then mark.value else name.rest), ':');
      if colon.None? then NoInput
      else
        var typ := SkipSpace(colon.value);
        if IsName(typ) then InputParts(name.text, mark.Some?, typ) else NoInput
  }

  datatype OutputParts = NoOutput | OutputParts(key: string, ref: string)

  /** `output\s+(NAME)\s*=\s*(REF)`, after the keyword. */
  function MatchOutput(s: string): (r: OutputParts)
  {
    var name := ScanName(SkipSpace(s));
    if name.NoToken? then NoOutput
    else
      var eq := Expect(SkipSpace(name.rest), '=');
      if eq.None? then NoOutput
      else
        var ref := SkipSpace(eq.value);
        if IsRef(ref) then OutputParts(name.text, ref) else NoOutput
  }

  datatype CallParts = NoCall | CallParts(capability: string, vendor: Option<string>, args: string)

  /** `(NAME)(?:@(NAME))?\s*\((.*)\)`. */
  function MatchCall(s: string): (r: CallParts)
  {
    var cap := ScanName(s);
    if cap.NoToken? then NoCall
    else
      var at := Expect(cap.rest, '@');
      var vendor := if at.Some? then ScanName(at.value) else Token("", cap.rest);
      if vendor.NoToken? then NoCall
      else
        var body := SkipSpace(vendor.rest);
        if |body| >= 2 && body[0] == '(' && body[|body| - 1] == ')'
        then CallParts(cap.text, if at.Some? then Some(vendor.text) else None, body[1..|body| - 1])
        else NoCall
  }

  /** `step\s+(NAME)\s*=\s*` and a call, after the keyword. */
  function MatchStep(s: string): (r: Option<Step>)
  {
    var name := ScanName(SkipSpace(s));
    if name.NoToken? then None
    else
      var eq := Expect(SkipSpace(name.rest), '=');
      if eq.None? then None
      else
        match MatchCall(SkipSpace(eq.value))
        case NoCall => None
        case CallParts(cap, vendor, args) => Some(Step(name.text, cap, vendor, None, PutAll([], FindArgs(args))))
  }

  function ReadInput(line: string, parts: InputParts): (s: Stmt)
  {
    match parts
    case NoInput => Wrong(BadInput, line)
    case InputParts(field, optional, typ) =>
      match JsonType(typ)
      case None => Wrong(UnknownType, typ)
      case Some(t) => Input(field, optional, t)
  }

  function ReadStep(line: string, step: Option<Step>): (s: Stmt)
  {
    match step case None => Wrong(BadStep, line) case Some(st) => StepStmt(st)
  }

  function ReadOutput(line: string, parts: OutputParts): (s: Stmt)
  {
    match parts case NoOutput => Wrong(BadOutput, line) case OutputParts(k, ref) => Output(k, ref)
  }

  /** The statement on a line without comment and surrounding white space. */
  function Read(line: string): (s: Stmt)
  {
    if line == "" then Blank
    else if StartsWith(line, "agent ") then Agent(Strip(line[6..], IsSpace))
    else if StartsWith(line, "description") then Description(Strip(Strip(line[11..], IsSpace), IsQuote))
    else if StartsWith(line, "input ") then ReadInput(line, MatchInput(line[5..]))
    else if StartsWith(line, "step ") then ReadStep(line, MatchStep(line[4..]))
    else if StartsWith(line, "output ") then ReadOutput(line, MatchOutput(line[6..]))
    else Wrong(Unrecognized, line)
  }

  // ----- the parser state -----

  datatype Error = AtLine(line: nat, problem: Problem, detail: string) | MissingAgent | NeedsStep

  datatype Draft = Draft(
    name: string, description: string, props: Wiring, required: seq<string>,
    steps: seq<Step>, output: Wiring, errors: seq<Error>)

  const EMPTY_DRAFT := Draft("", "", [], [], [], [], [])

  function Apply(d: Draft, i: nat, s: Stmt): (r: Draft)
  {
    match s
    case Blank => d
    case Agent(name) =>
      if IsName(name) then d.(name := name)
      else d.(name := name, errors := d.errors + [AtLine(i, BadName, name)])
    case Description(text) => d.(description := text)
    case Input(field, optional, t) =>
      d.(props := Put(d.props, field, t), required := if optional then d.required else d.required + [field])
    case StepStmt(step) => d.(steps := d.steps + [step])
    case Output(k, ref) => d.(output := Put(d.output, k, ref))
    case Wrong(problem, detail) => d.(errors := d.errors + [AtLine(i, problem, detail)])
  }

  function ReadAll(lines: seq<string>): (r: seq<Stmt>)
    ensures |r| == |lines|
  {
    seq(|lines|, i requires 0 <= i < |lines| => Read(Code(lines[i])))
  }

  /** Statements i, i+1, ... applied in order. */
  function ApplyAll(d: Draft, i: nat, stmts: seq<Stmt>): (r: Draft)
    decreases |stmts|
  {
    if stmts == [] then d else ApplyAll(Apply(d, i, stmts[0]), i + 1, stmts[1..])
  }

  datatype Parsed = Parsed(composite: Option<Composite>, errors: seq<Error>)

  function Conclude(d: Draft): (r: Parsed)
  {
    var e1 := if d.name == "" then d.errors + [MissingAgent] else d.errors;
    var e2 := if d.steps == [] && e1 == [] then [NeedsStep] else e1;
    if e2 != [] then Parsed(None, e2)
    else Parsed(Some(Composite(d.name, d.name, d.description, Schema(d.props, d.required), d.steps, d.output)), [])
  }

  function ParseLines(lines: seq<string>): (r: Parsed)
  {
    Conclude(ApplyAll(EMPTY_DRAFT, 1, ReadAll(lines)))
  }

  function ParseSpec(text: string): (r: Parsed)
  {
    ParseLines(SplitLines(text))
  }

  /** Line-numbered errors strictly increase and stay within the lines read so far. */
  predicate Numbered(errors: seq<Error>, limit: nat)
  {
    && (forall j :: 0 <= j < |errors| ==> errors[j].AtLine? && 1 <= errors[j].line < limit)
    && (forall j, k :: 0 <= j < k < |errors| ==> errors[j].line < errors[k].line)
  }

  lemma {:induction false} ApplyNumbers(d: Draft, i: nat, stmts: seq<Stmt>)
    requires i >= 1 && Numbered(d.errors, i)
    ensures Numbered(ApplyAll(d, i, stmts).errors, i + |stmts|)
    decreases |stmts|
  {
    if stmts != [] {
      ApplyNumbers(Apply(d, i, stmts[0]), i + 1, stmts[1..]);
    }
  }

  /** For every text a composite comes back exactly when there are no errors, and the
      line-numbered errors come first, strictly increasing and in range. */
  lemma ErrorsAreOrdered(text: string)
    ensures var r := ParseSpec(text);
            && (r.composite.Some? <==> r.errors == [])
            && exists n :: && 0 <= n <= |r.errors| && Numbered(r.errors[..n], |SplitLines(text)| + 1)
                           && (r.errors[n..] == [] || r.errors[n..] == [MissingAgent] || r.errors[n..] == [NeedsStep])
  {
    var lines := SplitLines(text);
    ApplyNumbers(EMPTY_DRAFT, 1, ReadAll(lines));
    var d := ApplyAll(EMPTY_DRAFT, 1, ReadAll(lines));
    var r := ParseSpec(text);
    var n := |d.errors|;
    assert r.errors[..n] == d.errors;
    assert r.errors[n..] == [] || r.errors[n..] == [MissingAgent] || r.errors[n..] == [NeedsStep];
  }

  /** The source's loop, variable by variable. */
  method Parse(text: string) returns (composite: Option<Composite>, errors: seq<Error>)
    ensures Parsed(composite, errors) == ParseSpec(text)
    ensures composite.Some? <==> errors == []
  {
    var name, description := "", "";
    var props: Wiring, required: seq<string> := [], [];
    var steps: seq<Step>, output: Wiring := [], [];
    errors := [];
    var lines := SplitLines(text);
    ghost var stmts := ReadAll(lines);
    ghost var goal := ApplyAll(EMPTY_DRAFT, 1, stmts);
    for i := 0 to |lines|
      invariant ApplyAll(Draft(name, description, props, required, steps, output, errors), i + 1, stmts[i..]) == goal
    {
      assert stmts[i..][0] == stmts[i] && stmts[i..][1..] == stmts[i + 1..];
      match Read(Code(lines[i])) {
        case Blank =>
        case Agent(n) =>
          name := n;
          if !IsName(n) {
            errors := errors + [AtLine(i + 1, BadName, n)];
          }
        case Description(t) => description := t;
        case Input(field, optional, t) =>
          props := Put(props, field, t);
          if !optional {
            required := required + [field];
          }
        case StepStmt(step) => steps := steps + [step];
        case Output(k, ref) => output := Put(output, k, ref);
        case Wrong(problem, detail) => errors := errors + [AtLine(i + 1, problem, detail)];
      }
    }
    assert stmts[|lines|..] == [];
    if name == "" {
      errors := errors + [MissingAgent];
    }
    if steps == [] && errors == [] {
      errors := [NeedsStep];
    }
    if errors != [] {
      return None, errors;
    }
    composite := Some(Composite(name, name, description, Schema(props, required), steps, output));
  }
}

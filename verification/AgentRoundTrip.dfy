/** A canonical rendering of composites in agent.next, and the proof that the parser reads it
    back: nothing a composite of the language can say is lost or reordered. */
module AgentRoundTrip {
  import opened Text
  import opened Composer
  import opened AgentDsl
  import opened AgentGrammar

  // ----- rendering -----

  function RenderArgs(w: Wiring): (s: string)
  {
    if w == [] then ""
    else w[0].0 + (": " + (w[0].1 + (if |w| == 1 then "" else ", " + RenderArgs(w[1..]))))
  }

  function RenderInput(field: string, optional: bool, t: string): (s: string)
  {
    "input " + (field + ((if optional then "?" else "") + (": " + t)))
  }

  function RenderStep(st: Step): (s: string)
  {
    "step " + (st.name + (" = " + (st.capability + (AtVendor(st.vendor) + ("(" + (RenderArgs(st.inputs) + ")"))))))
  }

  function RenderOutput(k: string, ref: string): (s: string)
  {
    "output " + (k + (" = " + ref))
  }

  function RenderDescription(d: string): (s: string)
  {
    "description " + ("\"" + (d + "\""))
  }

  function InputLines(props: Wiring, required: seq<string>): (r: seq<string>)
    ensures |r| == |props|
  {
    seq(|props|, i requires 0 <= i < |props| => RenderInput(props[i].0, props[i].0 !in required, props[i].1))
  }

  function StepLines(steps: seq<Step>): (r: seq<string>)
    ensures |r| == |steps|
  {
    seq(|steps|, i requires 0 <= i < |steps| => RenderStep(steps[i]))
  }

  function OutputLines(w: Wiring): (r: seq<string>)
    ensures |r| == |w|
  {
    seq(|w|, i requires 0 <= i < |w| => RenderOutput(w[i].0, w[i].1))
  }

  function RenderLines(c: Composite): (r: seq<string>)
  {
    ["agent " + c.name] + ([RenderDescription(c.description)]
    + (InputLines(c.schema.properties, c.schema.required) + (StepLines(c.steps) + OutputLines(c.output))))
  }

  function Unlines(lines: seq<string>): (s: string)
  {
    if lines == [] then "" else lines[0] + ("\n" + Unlines(lines[1..]))
  }

  function Render(c: Composite): (s: string)
  {
    Unlines(RenderLines(c))
  }

  // ----- the composites the language can express -----

  predicate UniqueKeys(w: Wiring)
  {
    forall i, j :: 0 <= i < j < |w| ==> w[i].0 != w[j].0
  }

  predicate NamesToRefs(w: Wiring)
  {
    forall i :: 0 <= i < |w| ==> IsName(w[i].0) && IsRef(w[i].1)
  }

  predicate IsJsonType(t: string)
  {
    t == "string" || t == "number" || t == "integer" || t == "boolean"
  }

  predicate NamesToTypes(w: Wiring)
  {
    forall i :: 0 <= i < |w| ==> IsName(w[i].0) && IsJsonType(w[i].1)
  }

  /** The declared fields that are required, in declaration order. */
  function RequiredOf(props: Wiring, required: seq<string>): (r: seq<string>)
  {
    if props == [] then []
    else (if props[0].0 in required then [props[0].0] else []) + RequiredOf(props[1..], required)
  }

  predicate WellFormedStep(st: Step)
  {
    && IsName(st.name) && IsName(st.capability) && (st.vendor.Some? ==> IsName(st.vendor.value))
    && st.version.None? && NamesToRefs(st.inputs) && UniqueKeys(st.inputs)
  }

  /** No comment sign, no line break. */
  predicate Clean(s: string)
  {
    forall i :: 0 <= i < |s| ==> NotHash(s[i]) && InLine(s[i])
  }

  predicate PlainDescription(d: string)
  {
    Clean(d) && (d == "" || (!IsQuote(d[0]) && !IsQuote(d[|d| - 1])))
  }

  /** Everything but the required list is something the language can write down. */
  predicate Expressible(c: Composite)
  {
    && IsName(c.name) && c.capability == c.name && PlainDescription(c.description)
    && NamesToTypes(c.schema.properties) && UniqueKeys(c.schema.properties)
    && c.steps != [] && (forall i :: 0 <= i < |c.steps| ==> WellFormedStep(c.steps[i]))
    && NamesToRefs(c.output) && UniqueKeys(c.output)
  }

  predicate WellFormed(c: Composite)
  {
    Expressible(c) && RequiredOf(c.schema.properties, c.schema.required) == c.schema.required
  }

  /** The composite with its required fields in declaration order, each once. */
  function Normal(c: Composite): (r: Composite)
  {
    c.(schema := Schema(c.schema.properties, RequiredOf(c.schema.properties, c.schema.required)))
  }

  // ----- lines -----

  lemma NameIsClean(s: string)
    requires IsName(s) || IsRef(s)
    ensures Clean(s)
  {}

  lemma {:induction false} ArgsAreClean(w: Wiring)
    requires NamesToRefs(w)
    ensures Clean(RenderArgs(w))
  {
    if w != [] {
      NameIsClean(w[0].0);
      NameIsClean(w[0].1);
      ArgsAreClean(w[1..]);
      CleanConcat(", ", RenderArgs(w[1..]));
      var tail := if |w| == 1 then "" else ", " + RenderArgs(w[1..]);
      CleanConcat(w[0].1, tail);
      CleanConcat(": ", w[0].1 + tail);
      CleanConcat(w[0].0, ": " + (w[0].1 + tail));
    }
  }

  lemma CleanConcat(a: string, b: string)
    requires Clean(a) && Clean(b)
    ensures Clean(a + b)
  {}

  /** A clean line whose ends are not white space is its own code. */
  lemma CodeOfClean(line: string)
    requires Clean(line) && line != "" && !IsSpace(line[0]) && !IsSpace(line[|line| - 1])
    ensures Code(line) == line
  {
    ScanRun(line, "", NotHash);
    assert line + "" == line;
    StripNothing(line, IsSpace);
  }

  lemma ReadAgent(name: string)
    requires IsName(name)
    ensures var line := "agent " + name; Clean(line) && Read(Code(line)) == Agent(name)
  {
    var line := "agent " + name;
    NameIsClean(name);
    assert line[0] == 'a' && line[|line| - 1] == name[|name| - 1];
    CodeOfClean(line);
    assert line[..6] == "agent " && line[6..] == name;
    StripNothing(name, IsSpace);
  }

  lemma ReadDescription(d: string)
    requires PlainDescription(d)
    ensures var line := RenderDescription(d); Clean(line) && Read(Code(line)) == Description(d)
  {
    DescriptionCode(d);
    DispatchDescription(RenderDescription(d), "\"" + (d + "\""));
    StripDescription(d);
  }

  lemma DescriptionCode(d: string)
    requires Clean(d)
    ensures var line := RenderDescription(d); Clean(line) && Code(line) == line
  {
    var quoted := "\"" + (d + "\"");
    var line := "description " + quoted;
    CleanConcat(d, "\"");
    CleanConcat("\"", d + "\"");
    CleanConcat("description ", quoted);
    assert line[0] == 'd' && line[|line| - 1] == '"';
    CodeOfClean(line);
  }

  lemma DispatchDescription(line: string, quoted: string)
    requires line == "description " + quoted
    ensures Read(line) == Description(Strip(Strip(" " + quoted, IsSpace), IsQuote))
  {
    OtherKeyword(line, "agent ");
    assert line[..11] == "description" && line[11..] == " " + quoted;
  }

  lemma StripDescription(d: string)
    requires d == "" || (!IsQuote(d[0]) && !IsQuote(d[|d| - 1]))
    ensures Strip(Strip(" " + ("\"" + (d + "\"")), IsSpace), IsQuote) == d
  {
    var quoted := "\"" + (d + "\"");
    assert " " + quoted == " " + quoted + "";
    StripPadding(" ", quoted, "", IsSpace);
    assert quoted == "\"" + d + "\"";
    StripPadding("\"", d, "\"", IsQuote);
  }

  /** A line that starts differently does not carry the keyword. */
  lemma OtherKeyword(line: string, keyword: string)
    requires line != "" && keyword != "" && line[0] != keyword[0]
    ensures !StartsWith(line, keyword)
  {
    if |keyword| <= |line| {
      assert line[..|keyword|][0] == line[0];
    }
  }

  // The keyword of a line decides which matcher reads the rest.

  lemma DispatchInput(line: string, body: string)
    requires line == "input " + body
    ensures Read(line) == ReadInput(line, MatchInput(" " + body))
  {
    OtherKeyword(line, "agent ");
    OtherKeyword(line, "description");
    assert line[..6] == "input " && line[5..] == " " + body;
  }

  lemma DispatchStep(line: string, body: string)
    requires line == "step " + body
    ensures Read(line) == ReadStep(line, MatchStep(" " + body))
  {
    OtherKeyword(line, "agent ");
    OtherKeyword(line, "description");
    OtherKeyword(line, "input ");
    assert line[..5] == "step " && line[4..] == " " + body;
  }

  lemma DispatchOutput(line: string, body: string)
    requires line == "output " + body
    ensures Read(line) == ReadOutput(line, MatchOutput(" " + body))
  {
    OtherKeyword(line, "agent ");
    OtherKeyword(line, "description");
    OtherKeyword(line, "input ");
    OtherKeyword(line, "step ");
    assert line[..7] == "output " && line[6..] == " " + body;
  }

  lemma ReadRenderedInput(field: string, optional: bool, t: string)
    requires IsName(field) && IsJsonType(t)
    ensures var line := RenderInput(field, optional, t); Clean(line) && Read(Code(line)) == Input(field, optional, t)
  {
    var body := field + ((if optional then "?" else "") + (": " + t));
    var line := "input " + body;
    InputCode(field, optional, t, line);
    assert Read(line) == Input(field, optional, t) by {
      DispatchInput(line, body);
      InputBody(field, optional, t, body);
      JsonTypeIsFixed(line, field, optional, t);
    }
  }

  lemma JsonTypeIsFixed(line: string, field: string, optional: bool, t: string)
    requires IsJsonType(t)
    ensures ReadInput(line, InputParts(field, optional, t)) == Input(field, optional, t)
  {}

  lemma InputBody(field: string, optional: bool, t: string, body: string)
    requires IsName(field) && IsJsonType(t) && body == field + ((if optional then "?" else "") + (": " + t))
    ensures MatchInput(" " + body) == InputParts(field, optional, t)
  {
    assert ": " + t == "" + (":" + (" " + t));
    InputComplete(" " + body, InputParts(field, optional, t), " ", "", " ");
  }

  lemma InputCode(field: string, optional: bool, t: string, line: string)
    requires IsName(field) && IsJsonType(t)
    requires line == "input " + (field + ((if optional then "?" else "") + (": " + t)))
    ensures Clean(line) && Code(line) == line
  {
    InputLineIsClean(field, if optional then "?" else "", t);
    assert line[0] == 'i' && line[|line| - 1] == t[|t| - 1];
    CodeOfClean(line);
  }

  lemma InputLineIsClean(field: string, mark: string, t: string)
    requires IsName(field) && IsName(t) && (mark == "" || mark == "?")
    ensures Clean("input " + (field + (mark + (": " + t))))
  {
    NameIsClean(field);
    NameIsClean(t);
    CleanConcat(": ", t);
    CleanConcat(mark, ": " + t);
    CleanConcat(field, mark + (": " + t));
    CleanConcat("input ", field + (mark + (": " + t)));
  }

  lemma ReadRenderedOutput(k: string, ref: string)
    requires IsName(k) && IsRef(ref)
    ensures var line := RenderOutput(k, ref); Clean(line) && Read(Code(line)) == Output(k, ref)
  {
    var body := k + (" = " + ref);
    var line := "output " + body;
    OutputCode(k, ref, line);
    assert Read(line) == Output(k, ref) by {
      DispatchOutput(line, body);
      OutputBody(k, ref, body);
    }
  }

  lemma OutputBody(k: string, ref: string, body: string)
    requires IsName(k) && IsRef(ref) && body == k + (" = " + ref)
    ensures MatchOutput(" " + body) == OutputParts(k, ref)
  {
    assert " = " + ref == " " + ("=" + (" " + ref));
    OutputComplete(" " + body, OutputParts(k, ref), " ", " ", " ");
  }

  lemma OutputCode(k: string, ref: string, line: string)
    requires IsName(k) && IsRef(ref) && line == "output " + (k + (" = " + ref))
    ensures Clean(line) && Code(line) == line
  {
    OutputLineIsClean(k, ref);
    assert line[0] == 'o' && line[|line| - 1] == ref[|ref| - 1];
    CodeOfClean(line);
  }

  lemma OutputLineIsClean(k: string, ref: string)
    requires IsName(k) && IsRef(ref)
    ensures Clean("output " + (k + (" = " + ref)))
  {
    NameIsClean(k);
    NameIsClean(ref);
    CleanConcat(" = ", ref);
    CleanConcat(k, " = " + ref);
    CleanConcat("output ", k + (" = " + ref));
  }

  // ----- arguments -----

  lemma ScanRenderedArg(k: string, ref: string, tail: string)
    requires IsName(k) && IsRef(ref) && (tail == "" || tail[0] == ',')
    ensures ScanArg(k + (": " + (ref + tail))) == Arg(k, ref, tail)
  {
    var v := ref + tail;
    assert (": " + v)[0] == ':' && (": " + v)[1..] == " " + v;
    ScanNameRun(k, ": " + v);
    assert SkipSpace(": " + v) == ": " + v;
    assert v[0] == ref[0];
    SkipRun(" ", v);
    ScanRefRun(ref, tail);
  }

  lemma SkipComma(s: string)
    ensures FindArgs(", " + s) == FindArgs(s)
  {
    var t := ", " + s;
    assert t[1..] == " " + s && (" " + s)[1..] == s;
    assert ScanArg(t) == NoArg && ScanArg(" " + s) == NoArg;
  }

  lemma {:induction false} FindRenderedArgs(w: Wiring)
    requires NamesToRefs(w)
    ensures FindArgs(RenderArgs(w)) == w
  {
    if w != [] {
      var tail := if |w| == 1 then "" else ", " + RenderArgs(w[1..]);
      ScanRenderedArg(w[0].0, w[0].1, tail);
      FindRenderedArgs(w[1..]);
      SkipComma(RenderArgs(w[1..]));
      assert w == [w[0]] + w[1..];
      assert |w| == 1 ==> w[1..] == [];
    }
  }

  lemma {:induction false} PutNew(d: Wiring, k: string, v: string)
    requires forall i :: 0 <= i < |d| ==> d[i].0 != k
    ensures Put(d, k, v) == d + [(k, v)]
  {
    if d != [] {
      PutNew(d[1..], k, v);
    }
  }

  lemma {:induction false} PutAllNew(d: Wiring, w: Wiring)
    requires UniqueKeys(d + w)
    ensures PutAll(d, w) == d + w
    decreases |w|
  {
    if w == [] {
      assert d + w == d;
    } else {
      forall i | 0 <= i < |d| ensures d[i].0 != w[0].0 {
        assert (d + w)[i] == d[i] && (d + w)[|d|] == w[0];
      }
      PutNew(d, w[0].0, w[0].1);
      assert d + [w[0]] + w[1..] == d + w;
      PutAllNew(d + [w[0]], w[1..]);
    }
  }

  lemma ReadRenderedStep(st: Step)
    requires WellFormedStep(st)
    ensures var line := RenderStep(st); Clean(line) && Read(Code(line)) == StepStmt(st)
  {
    var args := RenderArgs(st.inputs);
    var call := st.capability + (AtVendor(st.vendor) + ("(" + (args + ")")));
    var body := st.name + (" = " + call);
    var line := "step " + body;
    StepLineIsClean(st, call);
    assert Code(line) == line by {
      assert line[0] == 's' && line[|line| - 1] == ')';
      CodeOfClean(line);
    }
    DispatchStep(line, body);
    MatchRenderedStep(st, " " + body, call);
  }

  lemma StepLineIsClean(st: Step, call: string)
    requires WellFormedStep(st)
    requires call == st.capability + (AtVendor(st.vendor) + ("(" + (RenderArgs(st.inputs) + ")")))
    ensures Clean("step " + (st.name + (" = " + call)))
  {
    CallIsClean(st, RenderArgs(st.inputs));
    NameIsClean(st.name);
    CleanConcat(" = ", call);
    CleanConcat(st.name, " = " + call);
    CleanConcat("step ", st.name + (" = " + call));
  }

  lemma CallIsClean(st: Step, args: string)
    requires WellFormedStep(st) && args == RenderArgs(st.inputs)
    ensures Clean(st.capability + (AtVendor(st.vendor) + ("(" + (args + ")"))))
  {
    ArgsAreClean(st.inputs);
    NameIsClean(st.capability);
    CleanConcat(args, ")");
    CleanConcat("(", args + ")");
    if st.vendor.Some? {
      NameIsClean(st.vendor.value);
      CleanConcat("@", st.vendor.value);
    }
    CleanConcat(AtVendor(st.vendor), "(" + (args + ")"));
    CleanConcat(st.capability, AtVendor(st.vendor) + ("(" + (args + ")")));
  }

  lemma MatchRenderedStep(st: Step, s: string, call: string)
    requires WellFormedStep(st)
    requires call == st.capability + (AtVendor(st.vendor) + ("(" + (RenderArgs(st.inputs) + ")")))
    requires s == " " + (st.name + (" = " + call))
    ensures MatchStep(s) == Some(st)
  {
    var p := CallParts(st.capability, st.vendor, RenderArgs(st.inputs));
    var brackets := "(" + (p.args + ")");
    assert "" + brackets == brackets;
    assert CallText(call, p, "");
    assert " = " + call == " " + ("=" + (" " + call));
    assert StepText(s, st.name, p, " ", " ", " ", "");
    StepComplete(s, st.name, p, " ", " ", " ", "");
    FindRenderedArgs(st.inputs);
    assert [] + st.inputs == st.inputs;
    PutAllNew([], st.inputs);
  }

  // ----- texts and lines -----

  ghost predicate AllInLine(lines: seq<string>)
  {
    forall i, j :: 0 <= i < |lines| && 0 <= j < |lines[i]| ==> InLine(lines[i][j])
  }

  /** Splitting a text into lines undoes joining them. */
  lemma {:induction false} SplitUnlines(lines: seq<string>)
    requires AllInLine(lines)
    ensures SplitLines(Unlines(lines)) == lines
  {
    if lines != [] {
      var rest := "\n" + Unlines(lines[1..]);
      ScanRun(lines[0], rest, InLine);
      assert rest[1..] == Unlines(lines[1..]);
      forall i, j | 0 <= i < |lines[1..]| && 0 <= j < |lines[1..][i]| ensures InLine(lines[1..][i][j]) {
        assert lines[1..][i] == lines[i + 1];
      }
      SplitUnlines(lines[1..]);
      assert lines == [lines[0]] + lines[1..];
    }
  }

  // ----- statements -----

  function InputStmts(props: Wiring, required: seq<string>): (r: seq<Stmt>)
    ensures |r| == |props|
  {
    seq(|props|, i requires 0 <= i < |props| => Input(props[i].0, props[i].0 !in required, props[i].1))
  }

  function StepStmts(steps: seq<Step>): (r: seq<Stmt>)
    ensures |r| == |steps|
  {
    seq(|steps|, i requires 0 <= i < |steps| => StepStmt(steps[i]))
  }

  function OutputStmts(w: Wiring): (r: seq<Stmt>)
    ensures |r| == |w|
  {
    seq(|w|, i requires 0 <= i < |w| => Output(w[i].0, w[i].1))
  }

  ghost predicate AllClean(lines: seq<string>)
  {
    forall i :: 0 <= i < |lines| ==> Clean(lines[i])
  }

  lemma ReadInputs(props: Wiring, required: seq<string>)
    requires NamesToTypes(props)
    ensures AllClean(InputLines(props, required)) && ReadAll(InputLines(props, required)) == InputStmts(props, required)
  {
    forall i | 0 <= i < |props|
      ensures Clean(InputLines(props, required)[i])
      ensures ReadAll(InputLines(props, required))[i] == InputStmts(props, required)[i]
    {
      ReadRenderedInput(props[i].0, props[i].0 !in required, props[i].1);
    }
  }

  lemma ReadSteps(steps: seq<Step>)
    requires forall j :: 0 <= j < |steps| ==> WellFormedStep(steps[j])
    ensures AllClean(StepLines(steps)) && ReadAll(StepLines(steps)) == StepStmts(steps)
  {
    forall i | 0 <= i < |steps|
      ensures Clean(StepLines(steps)[i]) && ReadAll(StepLines(steps))[i] == StepStmts(steps)[i]
    {
      ReadRenderedStep(steps[i]);
    }
  }

  lemma ReadOutputs(w: Wiring)
    requires NamesToRefs(w)
    ensures AllClean(OutputLines(w)) && ReadAll(OutputLines(w)) == OutputStmts(w)
  {
    forall i | 0 <= i < |w|
      ensures Clean(OutputLines(w)[i]) && ReadAll(OutputLines(w))[i] == OutputStmts(w)[i]
    {
      ReadRenderedOutput(w[i].0, w[i].1);
    }
  }

  lemma {:induction false} ApplyAppend(d: Draft, i: nat, a: seq<Stmt>, b: seq<Stmt>)
    ensures ApplyAll(d, i, a + b) == ApplyAll(ApplyAll(d, i, a), i + |a|, b)
    decreases |a|
  {
    if a == [] {
      assert a + b == b;
    } else {
      assert (a + b)[0] == a[0] && (a + b)[1..] == a[1..] + b;
      ApplyAppend(Apply(d, i, a[0]), i + 1, a[1..], b);
    }
  }

  lemma NewKey(d: Wiring, w: Wiring)
    requires UniqueKeys(d + w) && w != []
    ensures Put(d, w[0].0, w[0].1) + w[1..] == d + w
  {
    forall i | 0 <= i < |d| ensures d[i].0 != w[0].0 {
      assert (d + w)[i] == d[i] && (d + w)[|d|] == w[0];
    }
    PutNew(d, w[0].0, w[0].1);
  }

  lemma {:induction false} ApplyInputs(d: Draft, i: nat, props: Wiring, required: seq<string>)
    requires UniqueKeys(d.props + props)
    ensures ApplyAll(d, i, InputStmts(props, required))
            == d.(props := d.props + props, required := d.required + RequiredOf(props, required))
    decreases |props|
  {
    if props == [] {
      assert d.props + props == d.props && d.required + [] == d.required;
    } else {
      var d' := Apply(d, i, InputStmts(props, required)[0]);
      FirstInput(d, i, props, required);
      ApplyInputs(d', i + 1, props[1..], required);
    }
  }

  lemma FirstInput(d: Draft, i: nat, props: Wiring, required: seq<string>)
    requires props != [] && UniqueKeys(d.props + props)
    ensures InputStmts(props, required)[1..] == InputStmts(props[1..], required)
    ensures var d' := Apply(d, i, InputStmts(props, required)[0]);
            && d' == d.(props := d'.props, required := d'.required)
            && d'.props + props[1..] == d.props + props
            && d'.required + RequiredOf(props[1..], required) == d.required + RequiredOf(props, required)
  {
    NewKey(d.props, props);
    var own := if props[0].0 in required then [props[0].0] else [];
    assert RequiredOf(props, required) == own + RequiredOf(props[1..], required);
    assert Apply(d, i, InputStmts(props, required)[0]).required == d.required + own;
  }

  lemma {:induction false} ApplySteps(d: Draft, i: nat, steps: seq<Step>)
    ensures ApplyAll(d, i, StepStmts(steps)) == d.(steps := d.steps + steps)
    decreases |steps|
  {
    if steps == [] {
      assert d.steps + steps == d.steps;
    } else {
      assert StepStmts(steps)[1..] == StepStmts(steps[1..]);
      assert d.steps + [steps[0]] + steps[1..] == d.steps + steps;
      ApplySteps(d.(steps := d.steps + [steps[0]]), i + 1, steps[1..]);
    }
  }

  lemma {:induction false} ApplyOutputs(d: Draft, i: nat, w: Wiring)
    requires UniqueKeys(d.output + w)
    ensures ApplyAll(d, i, OutputStmts(w)) == d.(output := d.output + w)
    decreases |w|
  {
    if w == [] {
      assert d.output + w == d.output;
    } else {
      NewKey(d.output, w);
      assert OutputStmts(w)[1..] == OutputStmts(w[1..]);
      ApplyOutputs(d.(output := Put(d.output, w[0].0, w[0].1)), i + 1, w[1..]);
    }
  }

  /** The statements a rendering consists of. */
  function Statements(c: Composite): (r: seq<Stmt>)
  {
    [Agent(c.name)] + ([Description(c.description)]
    + (InputStmts(c.schema.properties, c.schema.required) + (StepStmts(c.steps) + OutputStmts(c.output))))
  }

  lemma ReadRendered(c: Composite)
    requires Expressible(c)
    ensures AllInLine(RenderLines(c)) && ReadAll(RenderLines(c)) == Statements(c)
  {
    ReadAgent(c.name);
    ReadDescription(c.description);
    ReadInputs(c.schema.properties, c.schema.required);
    ReadSteps(c.steps);
    ReadOutputs(c.output);
    var a, b := ["agent " + c.name], [RenderDescription(c.description)];
    var inputs := InputLines(c.schema.properties, c.schema.required);
    var steps, outputs := StepLines(c.steps), OutputLines(c.output);
    ReadConcat(steps, outputs);
    ReadConcat(inputs, steps + outputs);
    ReadConcat(b, inputs + (steps + outputs));
    ReadConcat(a, b + (inputs + (steps + outputs)));
    assert ReadAll(a) == [Agent(c.name)] && ReadAll(b) == [Description(c.description)];
    assert AllClean(a) && AllClean(b);
  }

  lemma ReadConcat(a: seq<string>, b: seq<string>)
    ensures ReadAll(a + b) == ReadAll(a) + ReadAll(b)
    ensures AllClean(a) && AllClean(b) ==> AllClean(a + b)
  {}

  lemma ApplyStatements(c: Composite)
    requires UniqueKeys(c.schema.properties) && UniqueKeys(c.output) && IsName(c.name)
    ensures ApplyAll(EMPTY_DRAFT, 1, Statements(c))
            == Draft(c.name, c.description, c.schema.properties, Normal(c).schema.required, c.steps, c.output, [])
  {
    var inputs := InputStmts(c.schema.properties, c.schema.required);
    var steps, outputs := StepStmts(c.steps), OutputStmts(c.output);
    var d1 := EMPTY_DRAFT.(name := c.name);
    ApplyAppend(EMPTY_DRAFT, 1, [Agent(c.name)], [Description(c.description)] + (inputs + (steps + outputs)));
    SingleStatement(EMPTY_DRAFT, 1, Agent(c.name));
    ApplyAppend(d1, 2, [Description(c.description)], inputs + (steps + outputs));
    SingleStatement(d1, 2, Description(c.description));
    ApplyBody(d1.(description := c.description), 3, c);
  }

  lemma ApplyBody(d: Draft, i: nat, c: Composite)
    requires UniqueKeys(c.schema.properties) && UniqueKeys(c.output)
    requires d.props == [] && d.required == [] && d.steps == [] && d.output == []
    ensures var inputs := InputStmts(c.schema.properties, c.schema.required);
            var stmts := inputs + (StepStmts(c.steps) + OutputStmts(c.output));
            ApplyAll(d, i, stmts)
            == d.(props := c.schema.properties, required := Normal(c).schema.required,
                  steps := c.steps, output := c.output)
  {
    var inputs := InputStmts(c.schema.properties, c.schema.required);
    var steps, outputs := StepStmts(c.steps), OutputStmts(c.output);
    var d1 := d.(props := c.schema.properties, required := Normal(c).schema.required);
    assert d.props + c.schema.properties == c.schema.properties;
    assert d.required + Normal(c).schema.required == Normal(c).schema.required;
    ApplyInputs(d, i, c.schema.properties, c.schema.required);
    ApplyAppend(d, i, inputs, steps + outputs);
    ApplyStepsAndOutputs(d1, i + |inputs|, c);
  }

  lemma ApplyStepsAndOutputs(d: Draft, i: nat, c: Composite)
    requires UniqueKeys(c.output) && d.steps == [] && d.output == []
    ensures ApplyAll(d, i, StepStmts(c.steps) + OutputStmts(c.output)) == d.(steps := c.steps, output := c.output)
  {
    assert d.steps + c.steps == c.steps && d.output + c.output == c.output;
    ApplySteps(d, i, c.steps);
    ApplyAppend(d, i, StepStmts(c.steps), OutputStmts(c.output));
    ApplyOutputs(d.(steps := c.steps), i + |c.steps|, c.output);
  }

  lemma SingleStatement(d: Draft, i: nat, s: Stmt)
    ensures ApplyAll(d, i, [s]) == Apply(d, i, s)
  {
    assert [s][1..] == [];
  }

  /** Parsing the canonical rendering of an expressible composite returns its normal form. */
  lemma ParseRenderNormal(c: Composite)
    requires Expressible(c)
    ensures ParseSpec(Render(c)) == Parsed(Some(Normal(c)), [])
  {
    ReadRendered(c);
    ApplyStatements(c);
    SplitUnlines(RenderLines(c));
  }

  /** Parsing the canonical rendering of a well-formed composite returns exactly that
      composite and no errors. */
  lemma ParseRender(c: Composite)
    requires WellFormed(c)
    ensures ParseSpec(Render(c)) == Parsed(Some(c), [])
  {
    ParseRenderNormal(c);
  }
}

/** The scanners of the agent.next parser against the statement grammar they implement:
    each accepts exactly the strings of its regular expression, with exactly its groups. */
module AgentGrammar {
  import opened Text
  import opened Composer
  import opened AgentDsl

  lemma SkipRun(w: string, b: string)
    requires AllSpace(w) && (b == "" || !IsSpace(b[0]))
    ensures SkipSpace(w + b) == b
  {
    ScanRun(w, b, IsSpace);
  }

  /** White space in front of s, and where the rest starts. */
  function Spaces(s: string): (w: string)
  {
    TakeWhile(s, IsSpace)
  }

  lemma SkipSound(s: string)
    ensures AllSpace(Spaces(s)) && s == Spaces(s) + SkipSpace(s)
    ensures SkipSpace(s) == "" || !IsSpace(SkipSpace(s)[0])
  {
    ScanSplits(s, IsSpace);
  }

  lemma ScanNameRun(n: string, b: string)
    requires IsName(n) && (b == "" || !NameChar(b[0]))
    ensures ScanName(n + b) == Token(n, b)
  {
    assert (n + b)[0] == n[0] && (n + b)[1..] == n[1..] + b;
    ScanRun(n, b, NameChar);
    ScanRun(n[1..], b, NameChar);
  }

  lemma ScanRefRun(n: string, b: string)
    requires IsRef(n) && (b == "" || !RefChar(b[0]))
    ensures ScanRef(n + b) == Token(n, b)
  {
    assert (n + b)[0] == n[0] && (n + b)[1..] == n[1..] + b;
    ScanRun(n, b, RefChar);
    ScanRun(n[1..], b, RefChar);
  }

  lemma ScanNameSound(s: string)
    requires ScanName(s).Token?
    ensures var t := ScanName(s);
            IsName(t.text) && s == t.text + t.rest && (t.rest == "" || !NameChar(t.rest[0]))
  {
    ScanSplits(s, NameChar);
    assert TakeWhile(s, NameChar)[0] == s[0];
  }

  lemma ExpectSound(s: string, c: char)
    requires Expect(s, c).Some?
    ensures s == [c] + Expect(s, c).value
  {}

  lemma ScanRefSound(s: string)
    requires ScanRef(s).Token?
    ensures var t := ScanRef(s);
            IsRef(t.text) && s == t.text + t.rest && (t.rest == "" || !RefChar(t.rest[0]))
  {
    ScanSplits(s, RefChar);
    assert TakeWhile(s, RefChar)[0] == s[0];
  }

  // ----- arguments -----

  /** s starts with `k w1 : w2 v`, and what follows does not continue the reference. */
  ghost predicate ArgText(s: string, k: string, v: string, rest: string, w1: string, w2: string)
  {
    && IsName(k) && IsRef(v) && AllSpace(w1) && AllSpace(w2) && (rest == "" || !RefChar(rest[0]))
    && s == k + (w1 + (":" + (w2 + (v + rest))))
  }

  lemma ArgComplete(s: string, k: string, v: string, rest: string, w1: string, w2: string)
    requires ArgText(s, k, v, rest, w1, w2)
    ensures ScanArg(s) == Arg(k, v, rest)
  {
    var t2 := w2 + (v + rest);
    var t1 := w1 + (":" + t2);
    assert t1[0] == ':' || IsSpace(t1[0]);
    ScanNameRun(k, t1);
    SkipRun(w1, ":" + t2);
    assert (":" + t2)[1..] == t2 && (v + rest)[0] == v[0];
    SkipRun(w2, v + rest);
    ScanRefRun(v, rest);
  }

  lemma ArgSound(s: string)
    requires ScanArg(s).Arg?
    ensures var a := ScanArg(s); exists w1, w2 :: ArgText(s, a.key, a.ref, a.rest, w1, w2)
  {
    var a, k := ScanArg(s), ScanName(s);
    var colon := Expect(SkipSpace(k.rest), ':');
    ScanNameSound(s);
    SkipSound(k.rest);
    ExpectSound(SkipSpace(k.rest), ':');
    SkipSound(colon.value);
    ScanRefSound(SkipSpace(colon.value));
    assert ArgText(s, a.key, a.ref, a.rest, Spaces(k.rest), Spaces(colon.value));
  }

  /** An argument is found at the front of s exactly when s starts with one. */
  lemma ArgExactly(s: string, k: string, v: string, rest: string)
    ensures ScanArg(s) == Arg(k, v, rest) <==> exists w1, w2 :: ArgText(s, k, v, rest, w1, w2)
  {
    if ScanArg(s) == Arg(k, v, rest) {
      ArgSound(s);
    }
    if w1, w2 :| ArgText(s, k, v, rest, w1, w2) {
      ArgComplete(s, k, v, rest, w1, w2);
    }
  }

  // ----- input -----

  /** s reads `w1 field [?] w2 : w3 typ` with white space w1, w2, w3. */
  ghost predicate InputText(s: string, p: InputParts, w1: string, w2: string, w3: string)
    requires p.InputParts?
  {
    && AllSpace(w1) && AllSpace(w2) && AllSpace(w3) && IsName(p.field) && IsName(p.typ)
    && s == w1 + (p.field + ((if p.optional then "?" else "") + (w2 + (":" + (w3 + p.typ)))))
  }

  lemma InputComplete(s: string, p: InputParts, w1: string, w2: string, w3: string)
    requires p.InputParts? && InputText(s, p, w1, w2, w3)
    ensures MatchInput(s) == p
  {
    var t3 := w3 + p.typ;
    var t2 := w2 + (":" + t3);
    var t1 := (if p.optional then "?" else "") + t2;
    SkipRun(w1, p.field + t1);
    assert t2[0] == ':' || IsSpace(t2[0]);
    assert t1[0] == if p.optional then '?' else t2[0];
    ScanNameRun(p.field, t1);
    assert if p.optional then t1[1..] == t2 else t1 == t2;
    SkipRun(w2, ":" + t3);
    assert (":" + t3)[1..] == t3;
    SkipRun(w3, p.typ);
  }

  /** What follows the optional question mark. */
  function PastMark(rest: string): (r: string)
  {
    var mark := Expect(rest, '?');
    if mark.Some? then mark.value else rest
  }

  lemma MarkSound(rest: string)
    ensures rest == (if Expect(rest, '?').Some? then "?" else "") + PastMark(rest)
  {
    if Expect(rest, '?').None? {
      assert "" + rest == rest;
    }
  }

  lemma InputSound(s: string)
    requires MatchInput(s).InputParts?
    ensures exists w1, w2, w3 :: InputText(s, MatchInput(s), w1, w2, w3)
  {
    var p := MatchInput(s);
    var name := ScanName(SkipSpace(s));
    var r := PastMark(name.rest);
    var colon := Expect(SkipSpace(r), ':');
    assert p == InputParts(name.text, Expect(name.rest, '?').Some?, SkipSpace(colon.value));
    assert s == Spaces(s) + (name.text + name.rest) && IsName(name.text) by {
      SkipSound(s);
      ScanNameSound(SkipSpace(s));
    }
    MarkSound(name.rest);
    assert r == Spaces(r) + (":" + colon.value) by {
      SkipSound(r);
      ExpectSound(SkipSpace(r), ':');
    }
    SkipSound(s);
    SkipSound(r);
    SkipSound(colon.value);
    assert InputText(s, p, Spaces(s), Spaces(r), Spaces(colon.value));
  }

  /** The input matcher returns p exactly on the texts of that form. */
  lemma InputExactly(s: string, p: InputParts)
    requires p.InputParts?
    ensures MatchInput(s) == p <==> exists w1, w2, w3 :: InputText(s, p, w1, w2, w3)
  {
    if MatchInput(s) == p {
      InputSound(s);
    }
    if w1, w2, w3 :| InputText(s, p, w1, w2, w3) {
      InputComplete(s, p, w1, w2, w3);
    }
  }

  // ----- output -----

  ghost predicate OutputText(s: string, p: OutputParts, w1: string, w2: string, w3: string)
    requires p.OutputParts?
  {
    && AllSpace(w1) && AllSpace(w2) && AllSpace(w3) && IsName(p.key) && IsRef(p.ref)
    && s == w1 + (p.key + (w2 + ("=" + (w3 + p.ref))))
  }

  lemma OutputComplete(s: string, p: OutputParts, w1: string, w2: string, w3: string)
    requires p.OutputParts? && OutputText(s, p, w1, w2, w3)
    ensures MatchOutput(s) == p
  {
    var t2 := w3 + p.ref;
    var t1 := w2 + ("=" + t2);
    SkipRun(w1, p.key + t1);
    assert t1[0] == '=' || IsSpace(t1[0]);
    ScanNameRun(p.key, t1);
    SkipRun(w2, "=" + t2);
    assert ("=" + t2)[1..] == t2;
    SkipRun(w3, p.ref);
  }

  /** What follows the `=` sign after a name. */
  lemma AssignmentSound(s: string)
    requires ScanName(SkipSpace(s)).Token? && Expect(SkipSpace(ScanName(SkipSpace(s)).rest), '=').Some?
    ensures var name := ScanName(SkipSpace(s));
            var eq := Expect(SkipSpace(name.rest), '=');
            && IsName(name.text) && AllSpace(Spaces(s)) && AllSpace(Spaces(name.rest)) && AllSpace(Spaces(eq.value))
            && s == Spaces(s) + (name.text + (Spaces(name.rest) + ("=" + (Spaces(eq.value) + SkipSpace(eq.value)))))
  {
    var name := ScanName(SkipSpace(s));
    var eq := Expect(SkipSpace(name.rest), '=');
    assert s == Spaces(s) + (name.text + name.rest) && IsName(name.text) && AllSpace(Spaces(s)) by {
      SkipSound(s);
      ScanNameSound(SkipSpace(s));
    }
    assert name.rest == Spaces(name.rest) + ("=" + eq.value) && AllSpace(Spaces(name.rest)) by {
      SkipSound(name.rest);
      ExpectSound(SkipSpace(name.rest), '=');
    }
    SkipSound(eq.value);
  }

  lemma OutputSound(s: string)
    requires MatchOutput(s).OutputParts?
    ensures exists w1, w2, w3 :: OutputText(s, MatchOutput(s), w1, w2, w3)
  {
    AssignmentSound(s);
    var name := ScanName(SkipSpace(s));
    var eq := Expect(SkipSpace(name.rest), '=');
    assert MatchOutput(s) == OutputParts(name.text, SkipSpace(eq.value));
    assert OutputText(s, MatchOutput(s), Spaces(s), Spaces(name.rest), Spaces(eq.value));
  }

  lemma OutputExactly(s: string, p: OutputParts)
    requires p.OutputParts?
    ensures MatchOutput(s) == p <==> exists w1, w2, w3 :: OutputText(s, p, w1, w2, w3)
  {
    if MatchOutput(s) == p {
      OutputSound(s);
    }
    if w1, w2, w3 :| OutputText(s, p, w1, w2, w3) {
      OutputComplete(s, p, w1, w2, w3);
    }
  }

  // ----- step -----

  function AtVendor(vendor: Option<string>): (s: string)
  {
    if vendor.Some? then "@" + vendor.value else ""
  }

  ghost predicate CallText(s: string, p: CallParts, w: string)
    requires p.CallParts?
  {
    && AllSpace(w) && IsName(p.capability) && (p.vendor.Some? ==> IsName(p.vendor.value))
    && s == p.capability + (AtVendor(p.vendor) + (w + ("(" + (p.args + ")"))))
  }

  lemma CallComplete(s: string, p: CallParts, w: string)
    requires p.CallParts? && CallText(s, p, w)
    ensures MatchCall(s) == p
  {
    var body := "(" + (p.args + ")");
    var t := w + body;
    assert t[0] == '(' || IsSpace(t[0]);
    VendorComplete(p.vendor, t);
    var rest := AtVendor(p.vendor) + t;
    assert rest[0] == '@' || rest[0] == '(' || IsSpace(rest[0]);
    ScanNameRun(p.capability, rest);
    SkipRun(w, body);
    assert body[1..|body| - 1] == p.args && body[|body| - 1] == ')';
  }

  /** An optional pin in front of t is scanned as such. */
  lemma VendorComplete(vendor: Option<string>, t: string)
    requires (vendor.Some? ==> IsName(vendor.value)) && t != "" && (t[0] == '(' || IsSpace(t[0]))
    ensures var rest := AtVendor(vendor) + t;
            && (Expect(rest, '@').Some? <==> vendor.Some?)
            && ScanVendor(rest) == Token(if vendor.Some? then vendor.value else "", t)
  {
    if vendor.Some? {
      assert AtVendor(vendor) + t == "@" + (vendor.value + t);
      assert ("@" + (vendor.value + t))[1..] == vendor.value + t;
      ScanNameRun(vendor.value, t);
    } else {
      assert AtVendor(vendor) + t == t;
    }
  }

  /** The optional vendor pin after a capability. */
  function ScanVendor(rest: string): (t: Token)
  {
    var at := Expect(rest, '@');
    if at.Some? then ScanName(at.value) else Token("", rest)
  }

  lemma VendorSound(rest: string, pin: Option<string>)
    requires ScanVendor(rest).Token?
    requires pin == if Expect(rest, '@').Some? then Some(ScanVendor(rest).text) else None
    ensures rest == AtVendor(pin) + ScanVendor(rest).rest && (pin.Some? ==> IsName(pin.value))
  {
    var at := Expect(rest, '@');
    if at.Some? {
      ScanNameSound(at.value);
      assert rest == "@" + at.value;
    } else {
      assert "" + rest == rest;
    }
  }

  /** p is what the scanners find in s, one after the other. */
  predicate Scanned(s: string, p: CallParts)
    requires p.CallParts?
  {
    var cap := ScanName(s);
    && cap.Token? && p.capability == cap.text
    && var vendor := ScanVendor(cap.rest);
       && vendor.Token? && p.vendor == (if Expect(cap.rest, '@').Some? then Some(vendor.text) else None)
       && var body := SkipSpace(vendor.rest);
          && |body| >= 2 && body[0] == '(' && body[|body| - 1] == ')' && p.args == body[1..|body| - 1]
  }

  lemma ScannedSound(s: string, p: CallParts)
    requires p.CallParts? && Scanned(s, p)
    ensures exists w :: CallText(s, p, w)
  {
    var rest := ScanName(s).rest;
    ScanNameSound(s);
    VendorSound(rest, p.vendor);
    var w := BodyFollows(ScanVendor(rest).rest, p);
    assert CallText(s, p, w);
  }

  lemma BodyFollows(tail: string, p: CallParts) returns (w: string)
    requires p.CallParts?
    requires var body := SkipSpace(tail);
             |body| >= 2 && body[0] == '(' && body[|body| - 1] == ')' && p.args == body[1..|body| - 1]
    ensures AllSpace(w) && tail == w + ("(" + (p.args + ")"))
  {
    w := Spaces(tail);
    SkipSound(tail);
    BracketsSound(SkipSpace(tail));
  }

  lemma CallSound(s: string)
    requires MatchCall(s).CallParts?
    ensures exists w :: CallText(s, MatchCall(s), w)
  {
    assert Scanned(s, MatchCall(s));
    ScannedSound(s, MatchCall(s));
  }

  lemma BracketsSound(body: string)
    requires |body| >= 2 && body[0] == '(' && body[|body| - 1] == ')'
    ensures body == "(" + (body[1..|body| - 1] + ")")
  {}

  lemma CallExactly(s: string, p: CallParts)
    requires p.CallParts?
    ensures MatchCall(s) == p <==> exists w :: CallText(s, p, w)
  {
    if MatchCall(s) == p {
      CallSound(s);
    }
    if w :| CallText(s, p, w) {
      CallComplete(s, p, w);
    }
  }

  ghost predicate StepText(s: string, name: string, p: CallParts, w1: string, w2: string, w3: string, w4: string)
    requires p.CallParts?
  {
    && AllSpace(w1) && AllSpace(w2) && AllSpace(w3) && IsName(name)
    && exists call :: CallText(call, p, w4) && s == w1 + (name + (w2 + ("=" + (w3 + call))))
  }

  function StepOf(name: string, p: CallParts): (st: Step)
    requires p.CallParts?
  {
    Step(name, p.capability, p.vendor, None, PutAll([], FindArgs(p.args)))
  }

  lemma StepComplete(s: string, name: string, p: CallParts, w1: string, w2: string, w3: string, w4: string)
    requires p.CallParts? && StepText(s, name, p, w1, w2, w3, w4)
    ensures MatchStep(s) == Some(StepOf(name, p))
  {
    var call :| CallText(call, p, w4) && s == w1 + (name + (w2 + ("=" + (w3 + call))));
    var t2 := w3 + call;
    var t1 := w2 + ("=" + t2);
    SkipRun(w1, name + t1);
    assert t1[0] == '=' || IsSpace(t1[0]);
    ScanNameRun(name, t1);
    SkipRun(w2, "=" + t2);
    assert ("=" + t2)[1..] == t2;
    assert call[0] == p.capability[0];
    SkipRun(w3, call);
    CallComplete(call, p, w4);
  }

  lemma StepSound(s: string)
    requires MatchStep(s).Some?
    ensures exists name, p: CallParts, w1, w2, w3, w4 ::
              p.CallParts? && StepText(s, name, p, w1, w2, w3, w4) && MatchStep(s).value == StepOf(name, p)
  {
    AssignmentSound(s);
    var name := ScanName(SkipSpace(s));
    var eq := Expect(SkipSpace(name.rest), '=');
    var call := SkipSpace(eq.value);
    var p := MatchCall(call);
    CallSound(call);
    var w4 :| CallText(call, p, w4);
    assert StepText(s, name.text, p, Spaces(s), Spaces(name.rest), Spaces(eq.value), w4);
    assert MatchStep(s) == Some(StepOf(name.text, p));
  }
}

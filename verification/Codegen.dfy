/** Client stubs from composites (gateway/agentdsl.py): the substitution table of each target
    language and what its expansion yields. */
module Codegen {
  import opened Text
  import opened Composer
  import AgentDsl
  import AgentRoundTrip
  import opened Substitution

  // ----- identifier styles -----

  predicate NotSeparator(c: char) { c != '-' && c != '_' }

  /** The non-empty runs between `-` and `_`. */
  function Parts(name: string): (r: seq<string>)
    decreases |name|
  {
    if name == "" then []
    else if !NotSeparator(name[0]) then Parts(name[1..])
    else [[name[0]] + TakeWhile(name[1..], NotSeparator)] + Parts(DropWhile(name[1..], NotSeparator))
  }

  function Lower(c: char): (r: char) { if 'A' <= c <= 'Z' then (c as int + 32) as char else c }

  function Upper(c: char): (r: char) { if 'a' <= c <= 'z' then (c as int - 32) as char else c }

  function LowerAll(s: string): (r: string)
    ensures |r| == |s|
  {
    seq(|s|, i requires 0 <= i < |s| => Lower(s[i]))
  }

  function Capitalize(s: string): (r: string)
  {
    if s == "" then "" else [Upper(s[0])] + LowerAll(s[1..])
  }

  function Capitals(parts: seq<string>): (r: string)
  {
    if parts == [] then "" else Capitalize(parts[0]) + Capitals(parts[1..])
  }

  function Camel(name: string): (r: string)
  {
    var p := Parts(name);
    if p == [] then name else LowerAll(p[0]) + Capitals(p[1..])
  }

  function Pascal(name: string): (r: string)
  {
    var p := Capitals(Parts(name));
    if p == "" then name else p
  }

  function Snake(name: string): (r: string)
  {
    var p := JoinWith(Parts(name), "_");
    if p == "" then name else p
  }

  // ----- the substitution table -----

  datatype Language = JS | TS | Go | Rust | Java | Proto

  function Or(s: string, default: string): (r: string) { if s == "" then default else s }

  function Keys(w: Wiring): (r: seq<string>)
    ensures |r| == |w|
  {
    seq(|w|, i requires 0 <= i < |w| => w[i].0)
  }

  function TsType(t: string): (r: string)
  {
    if t == "string" then "string" else if t == "number" || t == "integer" then "number"
    else if t == "boolean" then "boolean" else "unknown"
  }

  function GoType(t: string): (r: string)
  {
    if t == "string" then "string" else if t == "number" then "float64" else if t == "integer" then "int"
    else if t == "boolean" then "bool" else "any"
  }

  function ProtoType(t: string): (r: string)
  {
    if t == "string" then "string" else if t == "number" then "double" else if t == "integer" then "int64"
    else if t == "boolean" then "bool" else "string"
  }

  function FieldLine(lang: Language, k: string, t: string, number: nat): (r: string)
  {
    match lang
    case TS => k + ": " + TsType(t)
    case Go => "\t" + Pascal(k) + " " + GoType(t) + " `json:\"" + k + "\"`"
    case Rust => k + ": " + t
    case Proto => "  " + ProtoType(t) + " " + k + " = " + Decimal(number) + ";"
    case _ => ""
  }

  function FieldLines(lang: Language, w: Wiring): (r: seq<string>)
    ensures |r| == |w|
  {
    seq(|w|, i requires 0 <= i < |w| => FieldLine(lang, w[i].0, w[i].1, i + 1))
  }

  function LanguageSubs(lang: Language, w: Wiring): (r: Subs)
  {
    match lang
    case TS => [("TSFIELDS", Or(JoinWith(FieldLines(lang, w), "; "), "/* no inputs */"))]
    case Go => [("GOFIELDS", Or(JoinWith(FieldLines(lang, w), "\n"), "\t// (no inputs)"))]
    case Rust => [("RSFIELDS", Or(JoinWith(FieldLines(lang, w), ", "), "(no inputs)"))]
    case Proto => [("PROTOIN", Or(JoinWith(FieldLines(lang, w), "\n"), "  // (no inputs)"))]
    case _ => []
  }

  function CommonSubs(c: Composite): (r: Subs)
  {
    [("NAME", c.name), ("DESC", Or(c.description, "(no description)")),
     ("CAMEL", Camel(c.name)), ("PASCAL", Pascal(c.name)), ("SNAKE", Snake(c.name)),
     ("FIELDS", Or(JoinWith(Keys(c.schema.properties), ", "), "(no inputs)")),
     ("OUTS", Or(JoinWith(Keys(c.output), ", "), "(none)"))]
  }

  function SubsOf(c: Composite, lang: Language): (r: Subs)
  {
    CommonSubs(c) + LanguageSubs(lang, c.schema.properties)
  }

  /** The placeholders of each language's template, in order of appearance. */
  function Placeholders(lang: Language): (r: seq<string>)
  {
    match lang
    case JS => ["NAME", "NAME", "DESC", "CAMEL", "FIELDS", "NAME", "NAME", "OUTS"]
    case TS => ["NAME", "NAME", "DESC", "PASCAL", "TSFIELDS", "CAMEL", "PASCAL", "NAME", "NAME", "OUTS"]
    case Go => ["NAME", "NAME", "DESC", "PASCAL", "NAME", "PASCAL", "GOFIELDS",
                "PASCAL", "NAME", "OUTS", "PASCAL", "PASCAL", "NAME", "NAME"]
    case Rust => ["NAME", "NAME", "DESC", "NAME", "RSFIELDS", "OUTS", "SNAKE", "NAME"]
    case Java => ["NAME", "NAME", "DESC", "PASCAL", "NAME", "FIELDS", "OUTS", "NAME", "NAME"]
    case Proto => ["NAME", "NAME", "DESC", "SNAKE", "PASCAL", "NAME", "PASCAL",
                   "PASCAL", "PASCAL", "PROTOIN", "PASCAL", "OUTS"]
  }

  /** A template of the language: its own placeholders around any plain text. */
  ghost predicate TemplateFor(t: Template, lang: Language)
  {
    Fits(t, Placeholders(lang))
  }

  /** The composite's strings that go verbatim into a placeholder's value. */
  function Sources(c: Composite, lang: Language, key: string): (r: seq<string>)
  {
    if key == "NAME" then [c.name]
    else if key == "DESC" then [c.description]
    else if key == "CAMEL" || key == "PASCAL" || key == "SNAKE" then []
    else if key == "OUTS" then Keys(c.output)
    else Keys(c.schema.properties) + (if key == "RSFIELDS" then Types(c.schema.properties) else [])
  }

  function Types(w: Wiring): (r: seq<string>)
    ensures |r| == |w|
  {
    seq(|w|, i requires 0 <= i < |w| => w[i].1)
  }

  predicate SomeHolds(strings: seq<string>, m: string)
  {
    exists i :: 0 <= i < |strings| && Contains(strings[i], m)
  }

  // ----- identifier styles hold no placeholder -----

  predicate NoUnderscore(s: string)
  {
    forall i :: 0 <= i < |s| ==> s[i] != '_'
  }

  predicate Words(parts: seq<string>)
  {
    forall i :: 0 <= i < |parts| ==> parts[i] != "" && NoUnderscore(parts[i])
  }

  lemma {:induction false} PartsAreWords(name: string)
    ensures Words(Parts(name))
    ensures Parts(name) == [] ==> forall i :: 0 <= i < |name| ==> !NotSeparator(name[i])
    decreases |name|
  {
    if name != "" {
      if NotSeparator(name[0]) {
        ScanSplits(name[1..], NotSeparator);
        PartsAreWords(DropWhile(name[1..], NotSeparator));
      } else {
        PartsAreWords(name[1..]);
        assert forall i :: 0 < i < |name| ==> name[i] == name[1..][i - 1];
      }
    }
  }

  lemma {:induction false} CapitalsArePlain(parts: seq<string>)
    requires Words(parts)
    ensures NoUnderscore(Capitals(parts))
    ensures parts != [] ==> Capitals(parts) != ""
  {
    if parts != [] {
      CapitalsArePlain(parts[1..]);
    }
  }

  lemma NoDunderConcat(a: string, b: string)
    requires NoDunder(a) && NoDunder(b) && (a == "" || b == "" || a[|a| - 1] != '_' || b[0] != '_')
    ensures NoDunder(a + b)
  {}

  lemma {:induction false} SnakeKeepsNoDunder(parts: seq<string>)
    requires Words(parts)
    ensures NoDunder(JoinWith(parts, "_"))
    ensures parts != [] ==> JoinWith(parts, "_") != "" && JoinWith(parts, "_")[0] != '_'
  {
    if parts != [] {
      assert NoDunder(parts[0]);
      if |parts| > 1 {
        SnakeKeepsNoDunder(parts[1..]);
        var tail := JoinWith(parts[1..], "_");
        assert parts[0][|parts[0]| - 1] != '_';
        NoDunderConcat(parts[0], "_");
        NoDunderConcat(parts[0] + "_", tail);
      }
    }
  }

  lemma SeparatorsHoldNoMark(s: string, k: string)
    requires IsToken(k) && forall i :: 0 <= i < |s| ==> !NotSeparator(s[i])
    ensures !Contains(s, Mark(k))
  {
    MarkChars(k);
    assert Mark(k)[0 + 2] == k[0];
    forall i | 0 <= i <= |s| ensures !StartsWith(s[i..], Mark(k)) {
      DifferAt(s[i..], Mark(k), 2);
    }
  }

  /** For every name, also one with `__` in it: no identifier style yields a placeholder. */
  lemma StylesHoldNoMark(name: string, k: string)
    requires IsToken(k)
    ensures !Contains(Camel(name), Mark(k)) && !Contains(Pascal(name), Mark(k)) && !Contains(Snake(name), Mark(k))
  {
    var p := Parts(name);
    PartsAreWords(name);
    CapitalsArePlain(p);
    SnakeKeepsNoDunder(p);
    if p == [] {
      SeparatorsHoldNoMark(name, k);
    } else {
      CapitalsArePlain(p[1..]);
      assert NoUnderscore(LowerAll(p[0]));
      PlainHoldsNoMark(Camel(name), k);
      PlainHoldsNoMark(Pascal(name), k);
      PlainHoldsNoMark(Snake(name), k);
    }
  }

  // ----- exactly the strings put into a value can bring a placeholder with them -----

  lemma SeparatorsArePlain()
    ensures PlainPiece(", ") && PlainPiece("; ") && PlainPiece(": ") && PlainPiece("\n") && PlainPiece("\t")
    ensures PlainPiece(" = ") && PlainPiece("\"`") && PlainPiece("  ")
  {
    assert !IsUpper(", "[0]) && !IsUpper("; "[0]) && !IsUpper(": "[0]) && !IsUpper("\n"[0]) && !IsUpper("\t"[0]);
    assert !IsUpper(" = "[0]) && !IsUpper("\"`"[0]) && !IsUpper("  "[0]);
  }

  lemma {:induction false} JoinHoldsExactly(parts: seq<string>, sep: string, k: string)
    requires PlainPiece(sep) && IsToken(k)
    ensures Contains(JoinWith(parts, sep), Mark(k)) <==> SomeHolds(parts, Mark(k))
  {
    if parts == [] {
      PlainHoldsNoMark("", k);
    } else if |parts| > 1 {
      var tail := JoinWith(parts[1..], sep);
      JoinHoldsExactly(parts[1..], sep, k);
      ContainsBeforePiece(parts[0], sep, tail, k);
      assert parts[0] + sep + tail == parts[0] + (sep + tail);
      assert forall i :: 0 < i < |parts| ==> parts[i] == parts[1..][i - 1];
      SomeSplits([parts[0]], parts[1..], Mark(k));
      assert [parts[0]] + parts[1..] == parts && [parts[0]][0] == parts[0];
    }
  }

  lemma SomeSplits(a: seq<string>, b: seq<string>, m: string)
    ensures SomeHolds(a + b, m) <==> SomeHolds(a, m) || SomeHolds(b, m)
  {
    var c := a + b;
    assert forall i :: 0 <= i < |a| ==> c[i] == a[i];
    assert forall i :: 0 <= i < |b| ==> c[|a| + i] == b[i];
    if SomeHolds(c, m) {
      var i :| 0 <= i < |c| && Contains(c[i], m);
      assert i >= |a| ==> c[i] == b[i - |a|];
    }
  }

  lemma TypesArePlain(t: string)
    ensures NoUnderscore(TsType(t)) && NoUnderscore(GoType(t)) && NoUnderscore(ProtoType(t))
  {}

  predicate HasFields(lang: Language) { lang != JS && lang != Java }

  /** A field line holds a placeholder exactly when the field's name does, or in Rust its type. */
  lemma FieldLineHoldsExactly(lang: Language, key: string, t: string, n: nat, k: string)
    requires HasFields(lang) && IsToken(k)
    ensures Contains(FieldLine(lang, key, t, n), Mark(k))
       <==> Contains(key, Mark(k)) || (lang == Rust && Contains(t, Mark(k)))
  {
    TypesArePlain(t);
    match lang
    case TS =>
      ColonLineHoldsExactly(key, TsType(t), k);
      PlainHoldsNoMark(TsType(t), k);
    case Rust => ColonLineHoldsExactly(key, t, k);
    case Go =>
      StylesHoldNoMark(key, k);
      GoLineHoldsExactly(Pascal(key), key, GoType(t), k);
    case Proto => ProtoLineHoldsExactly(key, ProtoType(t), Decimal(n), k);
  }

  lemma ColonLineHoldsExactly(key: string, t: string, k: string)
    requires IsToken(k)
    ensures Contains(key + ": " + t, Mark(k)) <==> Contains(key, Mark(k)) || Contains(t, Mark(k))
  {
    SeparatorsArePlain();
    ContainsBeforePiece(key, ": ", t, k);
    assert key + ": " + t == key + (": " + t);
  }

  /** Plain text at either end of a string brings no placeholder. */
  lemma PlainEnds(a: string, s: string, b: string, k: string)
    requires PlainPiece(a) && PlainPiece(b) && IsToken(k)
    ensures Contains(a + (s + b), Mark(k)) <==> Contains(s, Mark(k))
    ensures Contains(a + s, Mark(k)) <==> Contains(s, Mark(k))
    ensures Contains(s + b, Mark(k)) <==> Contains(s, Mark(k))
  {
    PlainHoldsNoMark("", k);
    ContainsBeforePiece("", a, s + b, k);
    ContainsBeforePiece("", a, s, k);
    ContainsBeforePiece(s, b, "", k);
    assert "" + (a + (s + b)) == a + (s + b) && "" + (a + s) == a + s && s + (b + "") == s + b;
  }

  lemma PlainWithin(a: string, w: string, b: string)
    requires PlainPiece(a) && NoUnderscore(w) && NoUnderscore(b) && b != ""
    ensures PlainPiece(a + w + b)
  {
    var s := a + w + b;
    NoDunderConcat(a, w + b);
    assert s == a + (w + b);
    assert forall i :: 0 <= i < |a| ==> s[i] == a[i];
    assert s[|s| - 1] == b[|b| - 1];
  }

  lemma GoLineHoldsExactly(p: string, key: string, t: string, k: string)
    requires !Contains(p, Mark(k)) && NoUnderscore(t) && IsToken(k)
    ensures Contains("\t" + p + " " + t + " `json:\"" + key + "\"`", Mark(k)) <==> Contains(key, Mark(k))
  {
    SeparatorsArePlain();
    var mid := " " + t + " `json:\"";
    assert !IsUpper(" "[0]);
    PlainWithin(" ", t, " `json:\"");
    PlainEnds("\t", p, "\"`", k);
    PlainEnds("\t", key, "\"`", k);
    ContainsBeforePiece("\t" + p, mid, key + "\"`", k);
    assert "\t" + p + " " + t + " `json:\"" + key + "\"`" == ("\t" + p) + (mid + (key + "\"`"));
  }

  lemma ProtoLineHoldsExactly(key: string, t: string, n: string, k: string)
    requires NoUnderscore(t) && NoUnderscore(n) && IsToken(k)
    ensures Contains("  " + t + " " + key + " = " + n + ";", Mark(k)) <==> Contains(key, Mark(k))
  {
    SeparatorsArePlain();
    var head, tail := "  " + t + " ", " = " + n + ";";
    PlainWithin("  ", t, " ");
    PlainWithin(" = ", n, ";");
    PlainEnds(head, key, tail, k);
    assert "  " + t + " " + key + " = " + n + ";" == head + (key + tail);
  }

  lemma SomeHoldsPointwise(lines: seq<string>, a: seq<string>, b: seq<string>, both: bool, m: string)
    requires |lines| == |a| == |b|
    requires forall i :: 0 <= i < |lines| ==>
               (Contains(lines[i], m) <==> Contains(a[i], m) || (both && Contains(b[i], m)))
    ensures SomeHolds(lines, m) <==> SomeHolds(a, m) || (both && SomeHolds(b, m))
  {
    if i :| 0 <= i < |a| && Contains(a[i], m) {
      assert Contains(lines[i], m);
    }
    if i :| 0 <= i < |b| && both && Contains(b[i], m) {
      assert Contains(lines[i], m);
    }
  }

  lemma FieldLinesHoldExactly(lang: Language, w: Wiring, k: string)
    requires HasFields(lang) && IsToken(k)
    ensures SomeHolds(FieldLines(lang, w), Mark(k))
       <==> SomeHolds(Keys(w), Mark(k)) || (lang == Rust && SomeHolds(Types(w), Mark(k)))
  {
    var m, lines, names, types := Mark(k), FieldLines(lang, w), Keys(w), Types(w);
    forall i | 0 <= i < |lines|
      ensures Contains(lines[i], m) <==> Contains(names[i], m) || (lang == Rust && Contains(types[i], m))
    {
      FieldLineHoldsExactly(lang, w[i].0, w[i].1, i + 1, k);
    }
    SomeHoldsPointwise(lines, names, types, lang == Rust, m);
  }

  lemma JoinedHoldsExactly(parts: seq<string>, sep: string, default: string, k: string)
    requires PlainPiece(sep) && NoDunder(default) && IsToken(k)
    ensures Contains(Or(JoinWith(parts, sep), default), Mark(k)) <==> SomeHolds(parts, Mark(k))
  {
    JoinHoldsExactly(parts, sep, k);
    PlainHoldsNoMark("", k);
    PlainHoldsNoMark(default, k);
  }

  lemma FieldsHoldExactly(lang: Language, w: Wiring, k: string)
    requires HasFields(lang) && IsToken(k)
    ensures |LanguageSubs(lang, w)| == 1 && LanguageSubs(lang, w)[0].0 == OwnKey(lang)
    ensures Contains(LanguageSubs(lang, w)[0].1, Mark(k))
       <==> SomeHolds(Keys(w), Mark(k)) || (lang == Rust && SomeHolds(Types(w), Mark(k)))
  {
    SeparatorsArePlain();
    FieldLinesHoldExactly(lang, w, k);
    match lang
    case TS => JoinedHoldsExactly(FieldLines(lang, w), "; ", "/* no inputs */", k);
    case Go => JoinedHoldsExactly(FieldLines(lang, w), "\n", "\t// (no inputs)", k);
    case Rust => JoinedHoldsExactly(FieldLines(lang, w), ", ", "(no inputs)", k);
    case Proto => JoinedHoldsExactly(FieldLines(lang, w), "\n", "  // (no inputs)", k);
  }

  // ----- the table -----

  /** The placeholder only this language has, if any. */
  function OwnKey(lang: Language): (k: string)
  {
    match lang
    case TS => "TSFIELDS" case Go => "GOFIELDS" case Rust => "RSFIELDS" case Proto => "PROTOIN"
    case _ => ""
  }

  lemma KeysOfSubs(c: Composite, lang: Language)
    ensures var subs := SubsOf(c, lang);
            && |subs| == (if HasFields(lang) then 8 else 7)
            && subs[0].0 == "NAME" && subs[1].0 == "DESC" && subs[2].0 == "CAMEL" && subs[3].0 == "PASCAL"
            && subs[4].0 == "SNAKE" && subs[5].0 == "FIELDS" && subs[6].0 == "OUTS"
            && (HasFields(lang) ==> subs[7] == LanguageSubs(lang, c.schema.properties)[0] && subs[7].0 == OwnKey(lang))
  {
    var subs := SubsOf(c, lang);
    assert HasFields(lang) ==> subs[7] == LanguageSubs(lang, c.schema.properties)[0];
  }

  lemma TableKeysAreTokens(c: Composite, lang: Language)
    ensures TokenKeys(SubsOf(c, lang))
  {
    KeysOfSubs(c, lang);
    CommonTokens();
    OwnKeyIsToken(lang);
    var subs := SubsOf(c, lang);
    forall i | 0 <= i < |subs| ensures IsToken(subs[i].0) {
      assert i == 0 || i == 1 || i == 2 || i == 3 || i == 4 || i == 5 || i == 6 || i == 7;
    }
  }

  lemma CommonTokens()
    ensures IsToken("NAME") && IsToken("DESC") && IsToken("CAMEL") && IsToken("PASCAL")
    ensures IsToken("SNAKE") && IsToken("FIELDS") && IsToken("OUTS")
  {}

  lemma OwnKeyIsToken(lang: Language)
    ensures HasFields(lang) ==> IsToken(OwnKey(lang))
  {}

  lemma {:induction false} GetAt(subs: Subs, i: nat)
    requires i < |subs| && forall j :: 0 <= j < i ==> subs[j].0 != subs[i].0
    ensures Get(subs, subs[i].0) == Some(subs[i].1) && Later(subs, subs[i].0) == subs[i + 1..]
  {
    if i > 0 {
      assert subs[0].0 != subs[i].0;
      assert forall j :: 0 <= j < i - 1 ==> subs[1..][j] == subs[j + 1];
      GetAt(subs[1..], i - 1);
      assert subs[1..][i..] == subs[i + 1..];
    }
  }

  lemma CommonKeysDiffer()
    ensures var ks := ["NAME", "DESC", "CAMEL", "PASCAL", "SNAKE", "FIELDS", "OUTS"];
            forall i, j :: 0 <= i < j < 7 ==> ks[i] != ks[j]
  {
    assert "NAME"[0] != "DESC"[0] && "NAME"[0] != "OUTS"[0] && "DESC"[0] != "OUTS"[0];
    assert "CAMEL"[0] != "SNAKE"[0] && "PASCAL"[0] != "FIELDS"[0];
  }

  lemma OwnKeyDiffers(lang: Language)
    requires HasFields(lang)
    ensures forall k :: k in ["NAME", "DESC", "CAMEL", "PASCAL", "SNAKE", "FIELDS", "OUTS"] ==> k != OwnKey(lang)
  {}

  lemma KeysDiffer(c: Composite, lang: Language)
    ensures var subs := SubsOf(c, lang); forall i, j :: 0 <= i < j < |subs| ==> subs[i].0 != subs[j].0
  {
    var subs := SubsOf(c, lang);
    var ks := ["NAME", "DESC", "CAMEL", "PASCAL", "SNAKE", "FIELDS", "OUTS"];
    KeysOfSubs(c, lang);
    CommonKeysDiffer();
    forall i, j | 0 <= i < j < |subs| ensures subs[i].0 != subs[j].0 {
      assert i == 0 || i == 1 || i == 2 || i == 3 || i == 4 || i == 5 || i == 6;
      assert j == 1 || j == 2 || j == 3 || j == 4 || j == 5 || j == 6 || j == 7;
      assert subs[i].0 == ks[i] && ks[i] in ks;
      if j < 7 {
        assert subs[j].0 == ks[j];
      } else {
        OwnKeyDiffers(lang);
      }
    }
  }

  /** Every placeholder of a template has an entry in its table. */
  lemma EntryFor(c: Composite, lang: Language, p: nat) returns (i: nat)
    requires p < |Placeholders(lang)|
    ensures i < |SubsOf(c, lang)| && SubsOf(c, lang)[i].0 == Placeholders(lang)[p]
    ensures Get(SubsOf(c, lang), Placeholders(lang)[p]) == Some(SubsOf(c, lang)[i].1)
    ensures Later(SubsOf(c, lang), Placeholders(lang)[p]) == SubsOf(c, lang)[i + 1..]
  {
    var subs, k := SubsOf(c, lang), Placeholders(lang)[p];
    KeysOfSubs(c, lang);
    KnownPlaceholders(lang, p);
    i := if k == "NAME" then 0 else if k == "DESC" then 1 else if k == "CAMEL" then 2 else if k == "PASCAL" then 3
         else if k == "SNAKE" then 4 else if k == "FIELDS" then 5 else if k == "OUTS" then 6 else 7;
    KeysDiffer(c, lang);
    GetAt(subs, i);
  }

  lemma KnownPlaceholders(lang: Language, p: nat)
    requires p < |Placeholders(lang)|
    ensures var k := Placeholders(lang)[p];
            || k == "NAME" || k == "DESC" || k == "CAMEL" || k == "PASCAL" || k == "SNAKE"
            || k == "FIELDS" || k == "OUTS" || (HasFields(lang) && k == OwnKey(lang))
  {}

  /** A placeholder's value holds a mark exactly when a string put into it does. */
  lemma ValueHoldsExactly(c: Composite, lang: Language, i: nat, k: string)
    requires i < |SubsOf(c, lang)| && IsToken(k)
    ensures var e := SubsOf(c, lang)[i]; Contains(e.1, Mark(k)) <==> SomeHolds(Sources(c, lang, e.0), Mark(k))
  {
    KeysOfSubs(c, lang);
    if i == 7 {
      OwnValueHoldsExactly(c, lang, k);
    } else {
      CommonValueHoldsExactly(c, i, k);
      assert SubsOf(c, lang)[i] == CommonSubs(c)[i];
      SourcesAreCommon(c, lang, i);
    }
  }

  lemma SourcesAreCommon(c: Composite, lang: Language, i: nat)
    requires i < 7
    ensures Sources(c, lang, CommonSubs(c)[i].0) == Sources(c, JS, CommonSubs(c)[i].0)
  {}

  lemma OwnValueHoldsExactly(c: Composite, lang: Language, k: string)
    requires HasFields(lang) && IsToken(k)
    ensures Contains(LanguageSubs(lang, c.schema.properties)[0].1, Mark(k))
       <==> SomeHolds(Sources(c, lang, OwnKey(lang)), Mark(k))
  {
    var w := c.schema.properties;
    FieldsHoldExactly(lang, w, k);
    OwnSources(c, lang);
    SomeSplits(Keys(w), Types(w), Mark(k));
  }

  lemma OwnSources(c: Composite, lang: Language)
    requires HasFields(lang)
    ensures var w := c.schema.properties;
            Sources(c, lang, OwnKey(lang)) == if lang == Rust then Keys(w) + Types(w) else Keys(w)
  {
    OwnKeyDiffers(lang);
    assert Keys(c.schema.properties) + [] == Keys(c.schema.properties);
  }

  lemma CommonValueHoldsExactly(c: Composite, i: nat, k: string)
    requires i < 7 && IsToken(k)
    ensures var e := CommonSubs(c)[i]; Contains(e.1, Mark(k)) <==> SomeHolds(Sources(c, JS, e.0), Mark(k))
  {
    SeparatorsArePlain();
    if i == 0 {
      assert SomeHolds([c.name], Mark(k)) <==> Contains([c.name][0], Mark(k));
    } else if i == 1 {
      assert SomeHolds([c.description], Mark(k)) <==> Contains([c.description][0], Mark(k));
      PlainHoldsNoMark("", k);
      PlainHoldsNoMark("(no description)", k);
    } else if i < 5 {
      StylesHoldNoMark(c.name, k);
    } else if i == 5 {
      JoinedHoldsExactly(Keys(c.schema.properties), ", ", "(no inputs)", k);
      assert Keys(c.schema.properties) + [] == Keys(c.schema.properties);
    } else {
      JoinedHoldsExactly(Keys(c.output), ", ", "(none)", k);
    }
  }

  // ----- the generated stub -----

  /** No entry of the table finds its placeholder in the value of an earlier one that the
      language's template uses. */
  predicate Harmless(c: Composite, lang: Language)
  {
    NoClash(Placeholders(lang), SubsOf(c, lang))
  }

  /** A string of the composite that the stub uses holds m. */
  predicate UsedStringHolds(c: Composite, lang: Language, m: string)
  {
    exists p :: 0 <= p < |Placeholders(lang)| && SomeHolds(Sources(c, lang, Placeholders(lang)[p]), m)
  }

  lemma PlaceholdersAreCovered(c: Composite, lang: Language)
    ensures Covered(Placeholders(lang), SubsOf(c, lang))
  {
    var ks := Placeholders(lang);
    forall p | 0 <= p < |ks| ensures Get(SubsOf(c, lang), ks[p]).Some? {
      var i := EntryFor(c, lang, p);
    }
  }

  lemma UsedValuesHoldExactly(c: Composite, lang: Language, k: string)
    requires IsToken(k)
    ensures UsedValueHolds(Placeholders(lang), SubsOf(c, lang), Mark(k)) <==> UsedStringHolds(c, lang, Mark(k))
  {
    var ks, subs := Placeholders(lang), SubsOf(c, lang);
    forall p | 0 <= p < |ks|
      ensures Get(subs, ks[p]).Some?
      ensures Contains(Get(subs, ks[p]).value, Mark(k)) <==> SomeHolds(Sources(c, lang, ks[p]), Mark(k))
    {
      var i := EntryFor(c, lang, p);
      ValueHoldsExactly(c, lang, i, k);
    }
  }

  /** For every composite, language and template text around the placeholders: the stub is the
      expansion in which each value has been rewritten by the later entries; it is simultaneous
      expansion entry by entry exactly when the table is harmless. */
  lemma GeneratedIsExpansion(c: Composite, lang: Language, t: Template)
    requires TemplateFor(t, lang)
    ensures ReplaceEach(Flat(t), SubsOf(c, lang)) == Flat(Settle(t, SubsOf(c, lang)))
    ensures AlwaysAgree(t, SubsOf(c, lang)) <==> Harmless(c, lang)
    ensures Harmless(c, lang) ==> ReplaceEach(Flat(t), SubsOf(c, lang)) == Expand(t, SubsOf(c, lang))
  {
    var subs := SubsOf(c, lang);
    TableKeysAreTokens(c, lang);
    SequentialSettles(t, subs);
    SequentialIsSimultaneousExactly(t, subs);
    if Harmless(c, lang) {
      SequentialIsSimultaneous(t, subs);
    }
  }

  /** Whatever the template's text, the stub is the simultaneous expansion exactly when the later
      entries give each used value back unchanged. */
  lemma StubIsExpansionExactly(c: Composite, lang: Language)
    ensures (forall t :: TemplateFor(t, lang) ==> ReplaceEach(Flat(t), SubsOf(c, lang)) == Expand(t, SubsOf(c, lang)))
       <==> ValuesKept(Placeholders(lang), SubsOf(c, lang))
  {
    var ks, subs := Placeholders(lang), SubsOf(c, lang);
    TableKeysAreTokens(c, lang);
    forall p | 0 <= p < |ks| ensures IsToken(ks[p]) {
      var i := EntryFor(c, lang, p);
    }
    OutcomeIsExpansionExactly(ks, subs);
    assert forall t :: TemplateFor(t, lang) <==> Fits(t, ks);
  }

  /** A placeholder is left in a harmless stub exactly when a string the stub uses holds it. */
  lemma LeftInStubExactly(c: Composite, lang: Language, t: Template, k: string)
    requires TemplateFor(t, lang) && Harmless(c, lang) && IsToken(k)
    ensures Contains(ReplaceEach(Flat(t), SubsOf(c, lang)), Mark(k)) <==> UsedStringHolds(c, lang, Mark(k))
  {
    GeneratedIsExpansion(c, lang, t);
    PlaceholdersAreCovered(c, lang);
    ExpansionHoldsExactly(t, SubsOf(c, lang), k);
    UsedValuesHoldExactly(c, lang, k);
  }

  lemma {:induction false} GetOfPrefix(subs: Subs, n: nat, k: string)
    requires n <= |subs| && Get(subs[..n], k).Some?
    ensures Get(subs, k) == Get(subs[..n], k)
  {
    if subs[0].0 != k {
      assert subs[..n][1..] == subs[1..][..n - 1];
      GetOfPrefix(subs[1..], n - 1, k);
    }
  }

  /** No string that the stub uses holds a placeholder of the table; `a__b` and `__init__` do not. */
  predicate HoldsNoPlaceholder(c: Composite, lang: Language)
  {
    forall n :: 0 <= n < |SubsOf(c, lang)| ==> !UsedStringHolds(c, lang, Mark(SubsOf(c, lang)[n].0))
  }

  lemma PlaceholderFreeIsHarmless(c: Composite, lang: Language)
    requires HoldsNoPlaceholder(c, lang)
    ensures Harmless(c, lang)
  {
    var ks, subs := Placeholders(lang), SubsOf(c, lang);
    TableKeysAreTokens(c, lang);
    forall n | 0 <= n < |subs| ensures !Clashes(ks, subs, n) {
      var m := Mark(subs[n].0);
      UsedValuesHoldExactly(c, lang, subs[n].0);
      forall p | 0 <= p < |ks| && Get(subs[..n], ks[p]).Some? ensures !Contains(Get(subs[..n], ks[p]).value, m) {
        GetOfPrefix(subs, n, ks[p]);
      }
    }
  }

  /** Such a composite's stub is the simultaneous expansion, and no placeholder of the table is
      left in it. */
  lemma StubIsComplete(c: Composite, lang: Language, t: Template)
    requires TemplateFor(t, lang) && HoldsNoPlaceholder(c, lang)
    ensures ReplaceEach(Flat(t), SubsOf(c, lang)) == Expand(t, SubsOf(c, lang))
    ensures forall n :: 0 <= n < |SubsOf(c, lang)| ==> !Contains(Expand(t, SubsOf(c, lang)), Mark(SubsOf(c, lang)[n].0))
  {
    var subs := SubsOf(c, lang);
    PlaceholderFreeIsHarmless(c, lang);
    GeneratedIsExpansion(c, lang, t);
    TableKeysAreTokens(c, lang);
    forall n | 0 <= n < |subs| ensures !Contains(Expand(t, subs), Mark(subs[n].0)) {
      LeftInStubExactly(c, lang, t, subs[n].0);
    }
  }

  /** The template after the table's replacements: the settled expansion always, the
      simultaneous one when the table is harmless, and with no placeholder of it left when the
      composite brings none. */
  method Generate(c: Composite, lang: Language, t: Template) returns (out: string)
    requires TemplateFor(t, lang)
    ensures out == Flat(Settle(t, SubsOf(c, lang)))
    ensures Harmless(c, lang) ==> out == Expand(t, SubsOf(c, lang))
    ensures HoldsNoPlaceholder(c, lang) ==>
              && out == Expand(t, SubsOf(c, lang))
              && forall n :: 0 <= n < |SubsOf(c, lang)| ==> !Contains(out, Mark(SubsOf(c, lang)[n].0))
  {
    out := ReplaceAll(Flat(t), SubsOf(c, lang));
    GeneratedIsExpansion(c, lang, t);
    if HoldsNoPlaceholder(c, lang) {
      StubIsComplete(c, lang, t);
    }
  }

  // ----- what a harmless stub says -----

  lemma ContainsInside(a: string, s: string, b: string)
    ensures Contains(a + (s + b), s)
  {
    assert (a + (s + b))[|a|..] == s + b && (s + b)[..|s|] == s;
  }

  lemma ContainsFurtherRight(a: string, s: string, x: string)
    requires Contains(s, x)
    ensures Contains(a + s, x)
  {
    var i :| 0 <= i <= |s| && StartsWith(s[i..], x);
    assert (a + s)[|a| + i..] == s[i..];
  }

  /** A placeholder's value appears verbatim in the expansion. */
  lemma {:induction false} ExpansionHoldsValue(t: Template, subs: Subs, k: string)
    requires k in Holes(t) && Get(subs, k).Some?
    ensures Contains(Expand(t, subs), Get(subs, k).value)
  {
    match t
    case Piece(s, rest) =>
      ExpansionHoldsValue(rest, subs, k);
      ContainsFurtherRight(s, Expand(rest, subs), Get(subs, k).value);
    case Slot(h, rest) =>
      if h == Token(k) {
        ContainsInside("", Get(subs, k).value, Expand(rest, subs));
        assert "" + (Get(subs, k).value + Expand(rest, subs)) == Expand(t, subs);
      } else {
        ExpansionHoldsValue(rest, subs, k);
        ContainsFurtherRight(HoleText(SubstHole(h, subs)), Expand(rest, subs), Get(subs, k).value);
      }
  }

  lemma NameAndDescription(c: Composite, lang: Language)
    ensures "NAME" in Placeholders(lang) && "DESC" in Placeholders(lang)
    ensures Get(SubsOf(c, lang), "NAME") == Some(c.name)
    ensures Get(SubsOf(c, lang), "DESC") == Some(Or(c.description, "(no description)"))
  {
    assert Placeholders(lang)[0] == "NAME" && Placeholders(lang)[2] == "DESC";
    KeysOfSubs(c, lang);
    KeysDiffer(c, lang);
    GetAt(SubsOf(c, lang), 0);
    GetAt(SubsOf(c, lang), 1);
  }

  /** In every language a harmless stub contains the agent's name and its description. */
  lemma StubNamesAgent(c: Composite, lang: Language, t: Template)
    requires Harmless(c, lang) && TemplateFor(t, lang)
    ensures var out := ReplaceEach(Flat(t), SubsOf(c, lang));
            Contains(out, c.name) && Contains(out, c.description)
  {
    GeneratedIsExpansion(c, lang, t);
    var subs := SubsOf(c, lang);
    NameAndDescription(c, lang);
    ExpansionHoldsValue(t, subs, "NAME");
    ExpansionHoldsValue(t, subs, "DESC");
    if c.description == "" {
      ContainsInside("", "", Expand(t, subs));
      assert "" + ("" + Expand(t, subs)) == Expand(t, subs);
    }
  }

  // ----- an agent whose name is a placeholder -----

  lemma {:induction false} LeftAlone(x: string, subs: Subs)
    requires forall n :: 0 <= n < |subs| ==> !Contains(x, Mark(subs[n].0))
    ensures ReplaceEach(x, subs) == x
    decreases |subs|
  {
    if subs != [] {
      ReplaceAbsent(x, Mark(subs[0].0), subs[0].1);
      LeftAlone(x, subs[1..]);
    }
  }

  function Settled(subs: Subs, k: string): (r: string)
  {
    HoleText(SettleHole(Token(k), subs))
  }

  lemma {:induction false} SettlingShortens(t: Template, subs: Subs)
    requires Unfilled(t) && Covered(Holes(t), subs)
    requires forall i :: 0 <= i < |Holes(t)| ==> |Settled(subs, Holes(t)[i])| <= |Get(subs, Holes(t)[i]).value|
    ensures |Flat(Settle(t, subs))| <= |Expand(t, subs)|
    ensures (exists i :: 0 <= i < |Holes(t)| && |Settled(subs, Holes(t)[i])| < |Get(subs, Holes(t)[i]).value|)
      ==> |Flat(Settle(t, subs))| < |Expand(t, subs)|
  {
    match t
    case End =>
    case Piece(_, rest) => SettlingShortens(rest, subs);
    case Slot(h, rest) =>
      var ks := Holes(t);
      assert ks == [h.name] + Holes(rest) && ks[0] == h.name;
      assert forall i :: 0 <= i < |Holes(rest)| ==> ks[1 + i] == Holes(rest)[i];
      SettlingShortens(rest, subs);
      assert h == Token(h.name);
      if i :| 0 < i < |ks| && |Settled(subs, ks[i])| < |Get(subs, ks[i]).value| {
        assert Holes(rest)[i - 1] == ks[i];
      }
  }

  /** An agent named `__DESC__` and described as `x`. */
  function Misnamed(): (c: Composite)
  {
    Composite(Mark("DESC"), Mark("DESC"), "x", Schema([], []), [Step("s", "s", None, None, [])], [])
  }

  lemma MisnamedValues(lang: Language, i: nat, k: string)
    requires 0 < i < |SubsOf(Misnamed(), lang)| && IsToken(k)
    ensures !Contains(SubsOf(Misnamed(), lang)[i].1, Mark(k))
  {
    var c := Misnamed();
    ValueHoldsExactly(c, lang, i, k);
    KeysOfSubs(c, lang);
    KeysDiffer(c, lang);
    var key := SubsOf(c, lang)[i].0;
    assert key != "NAME";
    PlainHoldsNoMark("x", k);
    assert forall j :: 0 <= j < |Sources(c, lang, key)| ==> Sources(c, lang, key)[j] == "x";
  }

  lemma MisnamedName(lang: Language)
    ensures Settled(SubsOf(Misnamed(), lang), "NAME") == "x"
  {
    var c := Misnamed();
    var subs := SubsOf(c, lang);
    KeysOfSubs(c, lang);
    GetAt(subs, 0);
    ReplaceMark("DESC", "x");
    assert subs[1..][0] == subs[1] == ("DESC", "x") && subs[1..][1..] == subs[2..];
    TableKeysAreTokens(c, lang);
    forall n | 0 <= n < |subs[2..]| ensures !Contains("x", Mark(subs[2..][n].0)) {
      PlainHoldsNoMark("x", subs[2..][n].0);
    }
    LeftAlone("x", subs[2..]);
  }

  /** The language accepts an agent for whom, in every target language, the stub is not the
      simultaneous expansion: its name is replaced by its description. */
  lemma MisnamedStubDiffers(lang: Language, t: Template)
    requires TemplateFor(t, lang)
    ensures AgentDsl.ParseSpec(AgentRoundTrip.Render(Misnamed())) == AgentDsl.Parsed(Some(Misnamed()), [])
    ensures ReplaceEach(Flat(t), SubsOf(Misnamed(), lang)) != Expand(t, SubsOf(Misnamed(), lang))
  {
    MisnamedIsWellFormed();
    AgentRoundTrip.ParseRender(Misnamed());
    GeneratedIsExpansion(Misnamed(), lang, t);
    MisnamedIsShorter(lang, t);
  }

  lemma MisnamedIsShorter(lang: Language, t: Template)
    requires TemplateFor(t, lang)
    ensures |Flat(Settle(t, SubsOf(Misnamed(), lang)))| < |Expand(t, SubsOf(Misnamed(), lang))|
  {
    var c := Misnamed();
    var ks, subs := Placeholders(lang), SubsOf(c, lang);
    PlaceholdersAreCovered(c, lang);
    forall p | 0 <= p < |ks| ensures |Settled(subs, ks[p])| <= |Get(subs, ks[p]).value| {
      MisnamedSettles(lang, p);
    }
    NameAndDescription(c, lang);
    MisnamedName(lang);
    assert ks[0] == "NAME";
    SettlingShortens(t, subs);
  }

  lemma MisnamedSettles(lang: Language, p: nat)
    requires p < |Placeholders(lang)|
    ensures var subs, k := SubsOf(Misnamed(), lang), Placeholders(lang)[p];
            Get(subs, k).Some? && |Settled(subs, k)| <= |Get(subs, k).value|
  {
    var c := Misnamed();
    var subs := SubsOf(c, lang);
    var i := EntryFor(c, lang, p);
    KeysOfSubs(c, lang);
    if i == 0 {
      MisnamedName(lang);
    } else {
      TableKeysAreTokens(c, lang);
      var later := subs[i + 1..];
      forall n | 0 <= n < |later| ensures !Contains(subs[i].1, Mark(later[n].0)) {
        MisnamedValues(lang, i, later[n].0);
      }
      LeftAlone(subs[i].1, later);
    }
  }

  lemma MisnamedIsWellFormed()
    ensures AgentRoundTrip.WellFormed(Misnamed())
  {
    assert Mark("DESC") == "__DESC__";
  }

  // ----- what the identifier styles and types are -----

  predicate IsLowerOf(r: char, c: char)
  {
    if 'A' <= c <= 'Z' then r as int == c as int + 32 else r == c
  }

  predicate IsUpperOf(r: char, c: char)
  {
    if 'a' <= c <= 'z' then c as int == r as int + 32 else r == c
  }

  /** r is w in lower case. */
  predicate LowerWord(r: string, w: string)
  {
    |r| == |w| && forall i :: 0 <= i < |w| ==> IsLowerOf(r[i], w[i])
  }

  /** r is w in lower case but for its first letter, which is in upper case. */
  predicate CapitalWord(r: string, w: string)
  {
    |r| == |w| && forall i :: 0 <= i < |w| ==> if i == 0 then IsUpperOf(r[i], w[i]) else IsLowerOf(r[i], w[i])
  }

  predicate AreCapitals(rs: seq<string>, ws: seq<string>)
  {
    |rs| == |ws| && forall i :: 0 <= i < |ws| ==> CapitalWord(rs[i], ws[i])
  }

  predicate IsSeparator(c: char) { c == '-' || c == '_' }

  /** The parts of a name: words without separators. */
  predicate NameParts(ws: seq<string>)
  {
    ws != [] && forall i :: 0 <= i < |ws| ==> ws[i] != "" && forall c :: c in ws[i] ==> !IsSeparator(c)
  }

  lemma {:induction false} SkipSeparators(sep: string, s: string)
    requires forall c :: c in sep ==> IsSeparator(c)
    ensures Parts(sep + s) == Parts(s)
  {
    if sep == "" {
      assert sep + s == s;
    } else {
      assert (sep + s)[0] == sep[0] && sep[0] in sep && (sep + s)[1..] == sep[1..] + s;
      SkipSeparators(sep[1..], s);
    }
  }

  lemma OneWord(w: string, s: string)
    requires w != "" && (forall c :: c in w ==> !IsSeparator(c)) && (s == "" || IsSeparator(s[0]))
    ensures Parts(w + s) == [w] + Parts(s)
  {
    assert w[0] in w && (w + s)[0] == w[0] && (w + s)[1..] == w[1..] + s;
    assert forall i :: 0 <= i < |w[1..]| ==> w[1..][i] in w;
    ScanRun(w[1..], s, NotSeparator);
    assert [w[0]] + w[1..] == w;
  }

  /** Joining words by dashes or underscores and taking the parts gives the words back. */
  lemma {:induction false} PartsOfJoined(ws: seq<string>, sep: string)
    requires NameParts(ws) && sep != "" && forall c :: c in sep ==> IsSeparator(c)
    ensures Parts(JoinWith(ws, sep)) == ws
  {
    if |ws| == 1 {
      OneWord(ws[0], "");
      assert ws[0] + "" == ws[0];
    } else {
      var tail := JoinWith(ws[1..], sep);
      PartsOfJoined(ws[1..], sep);
      SkipSeparators(sep, tail);
      assert sep[0] in sep && (sep + tail)[0] == sep[0];
      OneWord(ws[0], sep + tail);
      assert ws[0] + sep + tail == ws[0] + (sep + tail);
      assert [ws[0]] + ws[1..] == ws;
    }
  }

  lemma LettersChangeCase(c: char)
    ensures IsLowerOf(Lower(c), c) && IsUpperOf(Upper(c), c)
  {}

  lemma CapitalizeIsCapital(w: string)
    ensures CapitalWord(Capitalize(w), w)
  {
    if w != "" {
      var r := Capitalize(w);
      LettersChangeCase(w[0]);
      forall i | 0 < i < |w| ensures IsLowerOf(r[i], w[i]) {
        assert r[i] == LowerAll(w[1..])[i - 1] == Lower(w[i]);
        LettersChangeCase(w[i]);
      }
    }
  }

  lemma JoinCons(x: string, rest: seq<string>)
    ensures JoinWith([x] + rest, "") == x + JoinWith(rest, "")
  {
    assert ([x] + rest)[1..] == rest;
    if rest == [] {
      assert [x] + rest == [x] && x + "" == x;
    } else {
      assert x + "" + JoinWith(rest, "") == x + JoinWith(rest, "");
    }
  }

  lemma CapitalsCons(x: string, rest: seq<string>, ws: seq<string>)
    requires ws != [] && CapitalWord(x, ws[0]) && AreCapitals(rest, ws[1..])
    ensures AreCapitals([x] + rest, ws)
  {
    var rs := [x] + rest;
    forall i | 0 <= i < |ws| ensures CapitalWord(rs[i], ws[i]) {
      if i > 0 {
        assert rs[i] == rest[i - 1] && ws[i] == ws[1..][i - 1];
      }
    }
  }

  lemma {:induction false} CapitalsAreJoined(ws: seq<string>) returns (rs: seq<string>)
    ensures AreCapitals(rs, ws) && Capitals(ws) == JoinWith(rs, "")
  {
    if ws == [] {
      rs := [];
    } else {
      var rest := CapitalsAreJoined(ws[1..]);
      rs := [Capitalize(ws[0])] + rest;
      CapitalizeIsCapital(ws[0]);
      CapitalsCons(Capitalize(ws[0]), rest, ws);
      JoinCons(Capitalize(ws[0]), rest);
    }
  }

  /** For a name given by its parts: the snake form joins them by underscores, the Pascal form
      runs them together capitalised, the camel form likewise but for a first part in lower case;
      and these are the values of the three placeholders. */
  lemma StylesOfName(c: Composite, lang: Language, ws: seq<string>, sep: string)
    requires NameParts(ws) && sep != "" && (forall x :: x in sep ==> IsSeparator(x)) && c.name == JoinWith(ws, sep)
    ensures Get(SubsOf(c, lang), "SNAKE") == Some(JoinWith(ws, "_"))
    ensures exists rs :: AreCapitals(rs, ws) && Get(SubsOf(c, lang), "PASCAL") == Some(JoinWith(rs, ""))
    ensures exists first, rs :: && LowerWord(first, ws[0]) && AreCapitals(rs, ws[1..])
                                && Get(SubsOf(c, lang), "CAMEL") == Some(first + JoinWith(rs, ""))
  {
    PartsOfJoined(ws, sep);
    StyleEntries(c, lang);
    PartsAreWords(c.name);
    CapitalsArePlain(ws);
    SnakeKeepsNoDunder(ws);
    var all := CapitalsAreJoined(ws);
    var rest := CapitalsAreJoined(ws[1..]);
    assert LowerWord(LowerAll(ws[0]), ws[0]);
  }

  /** A name of separators only is left as it is. */
  lemma StylesOfSeparators(name: string)
    requires forall c :: c in name ==> IsSeparator(c)
    ensures Camel(name) == Pascal(name) == Snake(name) == name
  {
    SkipSeparators(name, "");
    assert name + "" == name;
  }

  /** The text of one declared field: name and type in the order and form of the language. */
  predicate IsFieldLine(lang: Language, line: string, name: string, t: string, number: nat)
  {
    match lang
    case TS => line == name + ": " + TsType(t)
    case Go => line == "\t" + Pascal(name) + " " + GoType(t) + " `json:\"" + name + "\"`"
    case Rust => line == name + ": " + t
    case Proto => line == "  " + ProtoType(t) + " " + name + " = " + Decimal(number) + ";"
    case _ => false
  }

  function FieldSeparator(lang: Language): (s: string)
  {
    match lang case TS => "; " case Rust => ", " case _ => "\n"
  }

  /** The language's own entry: one line per declared field, in order and numbered from 1. */
  lemma FieldEntry(c: Composite, lang: Language)
    requires HasFields(lang) && c.schema.properties != []
    ensures exists lines :: IsFieldList(lang, lines, c.schema.properties)
              && Get(SubsOf(c, lang), OwnKey(lang)) == Some(JoinWith(lines, FieldSeparator(lang)))
  {
    var w := c.schema.properties;
    var lines := FieldLines(lang, w);
    forall i | 0 <= i < |w| ensures IsFieldLine(lang, lines[i], w[i].0, w[i].1, i + 1) {
      FieldLineForm(lang, w[i].0, w[i].1, i + 1);
    }
    assert lines[0] != "" by {
      assert IsFieldLine(lang, lines[0], w[0].0, w[0].1, 1);
    }
    JoinIsNotEmpty(lines, FieldSeparator(lang));
    OwnEntry(c, lang);
  }

  predicate IsFieldList(lang: Language, lines: seq<string>, w: Wiring)
  {
    |lines| == |w| && forall i :: 0 <= i < |w| ==> IsFieldLine(lang, lines[i], w[i].0, w[i].1, i + 1)
  }

  lemma FieldLineForm(lang: Language, name: string, t: string, n: nat)
    requires HasFields(lang)
    ensures IsFieldLine(lang, FieldLine(lang, name, t, n), name, t, n)
  {}

  lemma JoinIsNotEmpty(parts: seq<string>, sep: string)
    requires parts != [] && parts[0] != ""
    ensures JoinWith(parts, sep) != ""
  {}

  lemma OwnEntry(c: Composite, lang: Language)
    requires HasFields(lang)
    ensures Get(SubsOf(c, lang), OwnKey(lang)) == Some(LanguageSubs(lang, c.schema.properties)[0].1)
  {
    KeysOfSubs(c, lang);
    KeysDiffer(c, lang);
    GetAt(SubsOf(c, lang), 7);
  }

  /** The description and the lists of input and output names, or words for none. */
  lemma ListEntries(c: Composite, lang: Language)
    ensures var subs, ins, outs := SubsOf(c, lang), Keys(c.schema.properties), Keys(c.output);
            && (ins == [] ==> Get(subs, "FIELDS") == Some("(no inputs)"))
            && (JoinWith(ins, ", ") != "" ==> Get(subs, "FIELDS") == Some(JoinWith(ins, ", ")))
            && (c.description == "" ==> Get(subs, "DESC") == Some("(no description)"))
            && (c.description != "" ==> Get(subs, "DESC") == Some(c.description))
            && (outs == [] ==> Get(subs, "OUTS") == Some("(none)"))
            && (JoinWith(outs, ", ") != "" ==> Get(subs, "OUTS") == Some(JoinWith(outs, ", ")))
  {
    KeysOfSubs(c, lang);
    KeysDiffer(c, lang);
    GetAt(SubsOf(c, lang), 1);
    GetAt(SubsOf(c, lang), 5);
    GetAt(SubsOf(c, lang), 6);
  }

  lemma StyleEntries(c: Composite, lang: Language)
    ensures Get(SubsOf(c, lang), "CAMEL") == Some(Camel(c.name))
    ensures Get(SubsOf(c, lang), "PASCAL") == Some(Pascal(c.name))
    ensures Get(SubsOf(c, lang), "SNAKE") == Some(Snake(c.name))
  {
    KeysOfSubs(c, lang);
    KeysDiffer(c, lang);
    GetAt(SubsOf(c, lang), 2);
    GetAt(SubsOf(c, lang), 3);
    GetAt(SubsOf(c, lang), 4);
  }

  /** The types of the generated fields, declared type by declared type. */
  lemma TypesOfFields(t: string)
    ensures TsType("string") == "string" && TsType("number") == TsType("integer") == "number"
    ensures GoType("string") == "string" && GoType("number") == "float64" && GoType("integer") == "int"
    ensures ProtoType("string") == "string" && ProtoType("number") == "double" && ProtoType("integer") == "int64"
    ensures TsType("boolean") == "boolean" && GoType("boolean") == ProtoType("boolean") == "bool"
    ensures !AgentRoundTrip.IsJsonType(t) ==> TsType(t) == "unknown" && GoType(t) == "any" && ProtoType(t) == "string"
  {}
}

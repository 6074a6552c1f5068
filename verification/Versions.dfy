/** Version strings, triples and ranges (gateway/catalog.py). */
module Versions {
  import opened Text

  datatype Triple = Triple(major: nat, minor: nat, patch: nat)

  /** One dotted component; anything but a run of digits counts as 0. */
  function Component(p: string): (n: nat)
  {
    if IsDigits(p) then ToNat(p) else 0
  }

  function Components(parts: seq<string>): (key: seq<nat>)
    ensures |key| == |parts|
  {
    if parts == [] then [] else [Component(parts[0])] + Components(parts[1..])
  }

  /** The dotted part in front of the first `-`, component by component. */
  function SemverKey(version: string): (key: seq<nat>)
    ensures |key| >= 1
  {
    Components(Split(Split(version, '-')[0], '.'))
  }

  function TripleOf(key: seq<nat>): (t: Triple)
    requires |key| >= 1
  {
    var k := key + [0, 0, 0];
    Triple(k[0], k[1], k[2])
  }

  function ToTriple(version: string): (t: Triple)
  {
    TripleOf(SemverKey(version))
  }

  /** The loop of the source: components are appended one by one. */
  method ComputeSemverKey(version: string) returns (key: seq<nat>)
    ensures key == SemverKey(version)
  {
    var parts := Split(Split(version, '-')[0], '.');
    key := [];
    for i := 0 to |parts|
      invariant key + Components(parts[i..]) == Components(parts)
    {
      assert parts[i..][0] == parts[i] && parts[i..][1..] == parts[i + 1..];
      key := key + [if IsDigits(parts[i]) then ToNat(parts[i]) else 0];
    }
    assert parts[|parts|..] == [];
  }

  // ----- precedence: numeric, left to right (item 11 of Semantic Versioning 2.0.0) -----

  predicate Lt(a: Triple, b: Triple)
  {
    a.major < b.major
    || (a.major == b.major && (a.minor < b.minor || (a.minor == b.minor && a.patch < b.patch)))
  }

  predicate Le(a: Triple, b: Triple) { a == b || Lt(a, b) }

  function CaretUpper(base: Triple): (t: Triple)
  {
    if base.major > 0 then Triple(base.major + 1, 0, 0)
    else if base.minor > 0 then Triple(0, base.minor + 1, 0)
    else Triple(0, 0, base.patch + 1)
  }

  function TildeUpper(base: Triple, components: nat): (t: Triple)
  {
    if components >= 2 then Triple(base.major, base.minor + 1, 0) else Triple(base.major + 1, 0, 0)
  }

  datatype Range =
    | Any
    | Caret(arg: string)
    | Tilde(arg: string)
    | AtLeast(arg: string)
    | AtMost(arg: string)
    | Above(arg: string)
    | Below(arg: string)
    | Equal(arg: string)

  /** Which form a spec without surrounding white space has; `==x` and bare `x` mean the same. */
  function ReadSpec(spec: string): (r: Range)
  {
    if spec == "" || spec == "*" || spec == "latest" || spec == "x" || spec == "X" then Any
    else if spec[0] == '^' then Caret(spec[1..])
    else if spec[0] == '~' then Tilde(spec[1..])
    else if StartsWith(spec, ">=") then AtLeast(spec[2..])
    else if StartsWith(spec, "<=") then AtMost(spec[2..])
    else if StartsWith(spec, ">") then Above(spec[1..])
    else if StartsWith(spec, "<") then Below(spec[1..])
    else if StartsWith(spec, "==") then Equal(spec[2..])
    else Equal(spec)
  }

  predicate Matches(v: Triple, range: Range)
  {
    match range
    case Any => true
    case Caret(x) => Le(ToTriple(x), v) && Lt(v, CaretUpper(ToTriple(x)))
    case Tilde(x) => Le(ToTriple(x), v) && Lt(v, TildeUpper(ToTriple(x), |Split(x, '.')|))
    case AtLeast(x) => Le(ToTriple(x), v)
    case AtMost(x) => Le(v, ToTriple(x))
    case Above(x) => Lt(ToTriple(x), v)
    case Below(x) => Lt(v, ToTriple(x))
    case Equal(x) => v == ToTriple(x)
  }

  predicate MatchVersion(version: string, spec: string)
  {
    Matches(ToTriple(version), ReadSpec(Strip(spec, IsSpace)))
  }

  // ----- printing and parsing back -----

  function Show(t: Triple): (s: string)
  {
    Decimal(t.major) + "." + (Decimal(t.minor) + "." + Decimal(t.patch))
  }

  lemma DigitsExclude(s: string, c: char)
    requires IsDigits(s) && !IsDigit(c)
    ensures c !in s
  {}

  lemma DottedParses(a: string, b: string, c: string)
    requires IsDigits(a) && IsDigits(b) && IsDigits(c)
    ensures SemverKey(a + "." + (b + "." + c)) == [ToNat(a), ToNat(b), ToNat(c)]
  {
    var s := a + "." + (b + "." + c);
    assert Split(s, '-') == [s] by {
      DigitsExclude(a, '-');
      DigitsExclude(b, '-');
      DigitsExclude(c, '-');
      SplitWithout(s, '-');
    }
    assert Split(s, '.') == [a] + ([b] + [c]) by {
      DigitsExclude(a, '.');
      DigitsExclude(b, '.');
      DigitsExclude(c, '.');
      SplitAtFirst(a, '.', b + "." + c);
      SplitAtFirst(b, '.', c);
      SplitWithout(c, '.');
    }
    ThreeComponents(a, b, c);
  }

  lemma ComponentsCons(a: string, rest: seq<string>)
    requires IsDigits(a)
    ensures Components([a] + rest) == [ToNat(a)] + Components(rest)
  {
    assert ([a] + rest)[1..] == rest;
  }

  lemma ThreeComponents(a: string, b: string, c: string)
    requires IsDigits(a) && IsDigits(b) && IsDigits(c)
    ensures Components([a] + ([b] + [c])) == [ToNat(a), ToNat(b), ToNat(c)]
  {
    ComponentsCons(a, [b] + [c]);
    ComponentsCons(b, [c]);
    ComponentsCons(c, []);
    assert [c] + [] == [c];
  }

  /** Printing any triple and parsing it gives the triple back. */
  lemma ShowRoundTrip(t: Triple)
    ensures ToTriple(Show(t)) == t
  {
    DottedParses(Decimal(t.major), Decimal(t.minor), Decimal(t.patch));
    DecimalRoundTrip(t.major);
    DecimalRoundTrip(t.minor);
    DecimalRoundTrip(t.patch);
  }

  lemma ReadComparator(op: string, s: string)
    requires op in [">=", "<=", ">", "<", "=="]
    requires |s| >= 5 && IsDigit(s[0])
    ensures ReadSpec(op + s) ==
            if op == ">=" then AtLeast(s) else if op == "<=" then AtMost(s)
            else if op == ">" then Above(s) else if op == "<" then Below(s) else Equal(s)
  {
    var spec := op + s;
    assert spec[|op|..] == s && spec[..|op|] == op;
    assert spec[|op|] == s[0];
    assert |op| == 1 ==> spec[..2] == [op[0], s[0]];
    assert |spec| == |op| + |s|;
  }

  lemma ShowShape(t: Triple)
    ensures |Show(t)| >= 5 && IsDigit(Show(t)[0]) && IsDigit(Show(t)[|Show(t)| - 1])
  {}

  /** A comparator in front of a printed triple means the comparison with that triple. */
  lemma ComparatorMeaning(version: string, op: string, t: Triple)
    requires op in [">=", "<=", ">", "<", "=="]
    ensures MatchVersion(version, op + Show(t)) <==>
            var v := ToTriple(version);
            if op == ">=" then Le(t, v) else if op == "<=" then Le(v, t)
            else if op == ">" then Lt(t, v) else if op == "<" then Lt(v, t) else v == t
  {
    ShowShape(t);
    ShowRoundTrip(t);
    ReadComparator(op, Show(t));
    NothingToStrip(op, Show(t));
  }

  lemma NothingToStrip(op: string, s: string)
    requires op in [">=", "<=", ">", "<", "=="] && s != "" && IsDigit(s[|s| - 1])
    ensures Strip(op + s, IsSpace) == op + s
  {
    var spec := op + s;
    assert spec[0] == op[0] && spec[|spec| - 1] == s[|s| - 1];
    StripNothing(spec, IsSpace);
  }

  // ----- caret and tilde -----

  /** Agreement with the base on every component up to its left-most non-zero one. */
  predicate AgreesThroughNonZero(base: Triple, v: Triple)
  {
    && v.major == base.major
    && (base.major == 0 ==> v.minor == base.minor)
    && (base.major == 0 && base.minor == 0 ==> v.patch == base.patch)
  }

  /** A caret spec is the conjunction of two comparators on printed bounds, and means
      "at least the base, agreeing with it through its left-most non-zero component". */
  lemma CaretIsInterval(version: string, spec: string, rest: string)
    requires Strip(spec, IsSpace) == "^" + rest
    ensures var base := ToTriple(rest);
            && (MatchVersion(version, spec) <==>
                MatchVersion(version, ">=" + Show(base)) && MatchVersion(version, "<" + Show(CaretUpper(base))))
            && (MatchVersion(version, spec) <==>
                Le(base, ToTriple(version)) && AgreesThroughNonZero(base, ToTriple(version)))
  {
    assert ("^" + rest)[1..] == rest && ("^" + rest)[0] == '^';
    assert ReadSpec("^" + rest) == Caret(rest);
    ComparatorMeaning(version, ">=", ToTriple(rest));
    ComparatorMeaning(version, "<", CaretUpper(ToTriple(rest)));
  }

  /** The same for tilde, whose width depends on how many dotted parts were written. */
  lemma TildeIsInterval(version: string, spec: string, rest: string)
    requires Strip(spec, IsSpace) == "~" + rest
    ensures var base := ToTriple(rest);
            var v := ToTriple(version);
            var parts := |Split(rest, '.')|;
            && (MatchVersion(version, spec) <==>
                MatchVersion(version, ">=" + Show(base)) && MatchVersion(version, "<" + Show(TildeUpper(base, parts))))
            && (MatchVersion(version, spec) <==>
                Le(base, v) && v.major == base.major && (parts >= 2 ==> v.minor == base.minor))
  {
    assert ("~" + rest)[1..] == rest && ("~" + rest)[0] == '~';
    assert ReadSpec("~" + rest) == Tilde(rest);
    ComparatorMeaning(version, ">=", ToTriple(rest));
    ComparatorMeaning(version, "<", TildeUpper(ToTriple(rest), |Split(rest, '.')|));
  }

  // ----- the documented `=` comparator -----

  lemma SplitAfter(d: char, s: string, c: char)
    requires d != c
    ensures Split([d] + s, c) == [[d] + Split(s, c)[0]] + Split(s, c)[1..]
  {
    assert ([d] + s)[0] == d && ([d] + s)[1..] == s;
  }

  /** A leading `=` only costs the first component, which stops being a number. */
  lemma EqualsSignZeroesMajor(x: string)
    ensures ToTriple("=" + x) == ToTriple(x).(major := 0)
  {
    SplitAfter('=', x, '-');
    var body := Split(x, '-')[0];
    assert Split("=" + x, '-')[0] == "=" + body;
    SplitAfter('=', body, '.');
    var parts := Split(body, '.');
    var parts' := Split("=" + body, '.');
    assert parts' == ["=" + parts[0]] + parts[1..];
    assert parts'[0][0] == '=' && !IsDigit('=');
    assert !IsDigits(parts'[0]);
    assert parts'[1..] == parts[1..];
    assert SemverKey("=" + x) == [0] + SemverKey(x)[1..];
  }

  /** `=x` is advertised as "equal to x"; the code treats it as a bare version, so it means
      that exactly when the major component of x is 0. */
  lemma EqualsSignMeaning(x: string)
    requires Strip("=" + x, IsSpace) == "=" + x && (x == "" || x[0] != '=')
    ensures (forall version :: MatchVersion(version, "=" + x) <==> ToTriple(version) == ToTriple(x))
            <==> ToTriple(x).major == 0
  {
    EqualsSignZeroesMajor(x);
    var spec := "=" + x;
    assert spec[0] == '=' && (|spec| > 1 ==> spec[1] == x[0]);
    assert ReadSpec(spec) == Equal(spec);
    if ToTriple(x).major != 0 {
      ShowRoundTrip(ToTriple(x));
      assert !MatchVersion(Show(ToTriple(x)), "=" + x);
    }
  }

  // ----- bare versions, wildcards, suffixes -----

  lemma NoOperator(s: string, op: string)
    requires s != "" && op != "" && s[0] != op[0]
    ensures !StartsWith(s, op)
  {
    if |op| <= |s| {
      assert s[..|op|][0] == s[0];
    }
  }

  lemma ReadBare(s: string)
    requires s != "" && IsDigit(s[0])
    ensures ReadSpec(s) == Equal(s)
  {
    NoOperator(s, ">=");
    NoOperator(s, "<=");
    NoOperator(s, ">");
    NoOperator(s, "<");
    NoOperator(s, "==");
    assert "*"[0] == '*' && "latest"[0] == 'l' && "x"[0] == 'x' && "X"[0] == 'X';
  }

  /** A printed triple is a spec for exactly that version, white space around it or not. */
  lemma BareIsExact(version: string, w1: string, t: Triple, w2: string)
    requires AllSpace(w1) && AllSpace(w2)
    ensures MatchVersion(version, w1 + Show(t) + w2) <==> ToTriple(version) == t
  {
    var s := Show(t);
    ShowShape(t);
    ShowRoundTrip(t);
    StripPadding(w1, s, w2, IsSpace);
    ReadBare(s);
  }

  /** The wildcards accept every version. */
  lemma WildcardsMatchAll(version: string, w1: string, spec: string, w2: string)
    requires AllSpace(w1) && AllSpace(w2) && spec in ["", "*", "latest", "x", "X"]
    ensures MatchVersion(version, w1 + spec + w2)
  {
    StripPadding(w1, spec, w2, IsSpace);
  }

  function Decimals(ns: seq<nat>): (r: seq<string>)
    ensures |r| == |ns|
  {
    seq(|ns|, i requires 0 <= i < |ns| => Decimal(ns[i]))
  }

  lemma {:induction false} ComponentsOfDecimals(ns: seq<nat>)
    ensures Components(Decimals(ns)) == ns
  {
    if ns != [] {
      ComponentsOfDecimals(ns[1..]);
      DecimalRoundTrip(ns[0]);
      assert Decimals(ns)[1..] == Decimals(ns[1..]);
    }
  }

  lemma {:induction false} JoinExcludes(parts: seq<string>, sep: string, c: char)
    requires c !in sep && forall i :: 0 <= i < |parts| ==> c !in parts[i]
    ensures c !in JoinWith(parts, sep)
  {
    if |parts| > 1 {
      JoinExcludes(parts[1..], sep, c);
    }
  }

  /** The key of a dotted version is its components, however many, and a `-` suffix is not read. */
  lemma KeyOfDotted(ns: seq<nat>, suffix: string)
    requires ns != []
    ensures SemverKey(JoinWith(Decimals(ns), ".")) == ns
    ensures SemverKey(JoinWith(Decimals(ns), ".") + ['-'] + suffix) == ns
    ensures ToTriple(JoinWith(Decimals(ns), ".")) ==
            Triple(ns[0], if |ns| > 1 then ns[1] else 0, if |ns| > 2 then ns[2] else 0)
  {
    var parts := Decimals(ns);
    var s := JoinWith(parts, ".");
    forall i | 0 <= i < |parts| ensures '.' !in parts[i] && '-' !in parts[i] {
      DigitsExclude(parts[i], '.');
      DigitsExclude(parts[i], '-');
    }
    JoinExcludes(parts, ".", '-');
    SplitWithout(s, '-');
    SplitAtFirst(s, '-', suffix);
    SplitJoin(parts, '.');
    ComponentsOfDecimals(ns);
  }
}

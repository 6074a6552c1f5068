/** The feature catalog: identity, static ranking, resolution and capability summaries
    (gateway/catalog.py). Equal Feature values stand for the same catalog object. */
module Catalog {
  import opened Text
  import opened StableSort
  import opened Versions

  datatype Trust = Official | Verified | Community

  datatype Manifest = Manifest(
    name: string, version: string, description: string,
    vendor: string, capability: string, trust: Trust)

  datatype Feature = Feature(manifest: Manifest, endpoint: Option<string>)

  function FeatureId(f: Feature): (id: string)
  {
    f.manifest.vendor + "/" + f.manifest.name + "@" + f.manifest.version
  }

  function TrustRank(t: Trust): (r: nat)
  {
    match t case Official => 0 case Verified => 1 case Community => 2
  }

  function Negated(key: seq<nat>): (r: seq<int>)
    ensures |r| == |key|
  {
    if key == [] then [] else [-key[0]] + Negated(key[1..])
  }

  function NewestKey(f: Feature): (k: seq<int>)
  {
    Negated(SemverKey(f.manifest.version))
  }

  /** Comparison of the sort keys (trust rank, negated version, vendor). */
  predicate BaselineLe(f: Feature, g: Feature)
  {
    var tf, tg := TrustRank(f.manifest.trust), TrustRank(g.manifest.trust);
    tf < tg
    || (tf == tg && LexLe(NewestKey(f), NewestKey(g))
        && (NewestKey(f) == NewestKey(g) ==> LexLe(Codes(f.manifest.vendor), Codes(g.manifest.vendor))))
  }

  predicate SameKey(f: Feature, g: Feature)
  {
    && f.manifest.trust == g.manifest.trust
    && NewestKey(f) == NewestKey(g)
    && f.manifest.vendor == g.manifest.vendor
  }

  function RankFeatures(fs: seq<Feature>): (r: seq<Feature>)
  {
    Sort(fs, BaselineLe)
  }

  lemma BaselineIsTotal(f: Feature, g: Feature)
    ensures BaselineLe(f, g) || BaselineLe(g, f)
    ensures BaselineLe(f, g) && BaselineLe(g, f) <==> SameKey(f, g)
  {
    LexTotal(NewestKey(f), NewestKey(g));
    LexTotal(Codes(f.manifest.vendor), Codes(g.manifest.vendor));
    if Codes(f.manifest.vendor) == Codes(g.manifest.vendor) {
      CodesInjective(f.manifest.vendor, g.manifest.vendor);
    }
  }

  lemma BaselineIsTransitive(f: Feature, g: Feature, h: Feature)
    requires BaselineLe(f, g) && BaselineLe(g, h)
    ensures BaselineLe(f, h)
  {
    if TrustRank(f.manifest.trust) == TrustRank(h.manifest.trust) {
      LexTransitive(NewestKey(f), NewestKey(g), NewestKey(h));
      if NewestKey(f) == NewestKey(h) {
        LexTotal(NewestKey(f), NewestKey(g));
        LexTransitive(Codes(f.manifest.vendor), Codes(g.manifest.vendor), Codes(h.manifest.vendor));
      }
    }
  }

  lemma BaselineIsPreorder()
    ensures TotalPreorder(BaselineLe)
  {
    forall f, g ensures BaselineLe(f, g) || BaselineLe(g, f) {
      BaselineIsTotal(f, g);
    }
    forall f, g, h | BaselineLe(f, g) && BaselineLe(g, h) ensures BaselineLe(f, h) {
      BaselineIsTransitive(f, g, h);
    }
  }

  ghost predicate DistinctKeys(fs: seq<Feature>)
  {
    forall f, g :: f in fs && g in fs && SameKey(f, g) ==> f == g
  }

  /** With distinct keys the static ranking does not depend on the order of its input. */
  lemma BaselineIgnoresInputOrder(fs: seq<Feature>, gs: seq<Feature>)
    requires multiset(fs) == multiset(gs) && DistinctKeys(fs)
    ensures RankFeatures(fs) == RankFeatures(gs)
  {
    BaselineIsPreorder();
    SortSorts(fs, BaselineLe);
    SortSorts(gs, BaselineLe);
    SortPermutes(fs, BaselineLe);
    SortPermutes(gs, BaselineLe);
    var a := RankFeatures(fs);
    forall f, g | f in a && g in a && BaselineLe(f, g) && BaselineLe(g, f) ensures f == g {
      BaselineIsTotal(f, g);
      assert f in multiset(a) && g in multiset(a);
    }
    SortedUniqueWithoutTies(a, RankFeatures(gs), BaselineLe);
  }

  // ----- what "newest first" means for keys of different length -----

  function Head(key: seq<nat>): (n: nat) { if key == [] then 0 else key[0] }
  function Tail(key: seq<nat>): (r: seq<nat>)
    ensures key == [] || |r| < |key|
  {
    if key == [] then [] else key[1..]
  }

  /** Numeric comparison with missing components read as 0. */
  predicate NotNewer(a: seq<nat>, b: seq<nat>)
    decreases |a| + |b|
  {
    (a == [] && b == []) || Head(a) < Head(b) || (Head(a) == Head(b) && NotNewer(Tail(a), Tail(b)))
  }

  predicate AllZero(key: seq<nat>)
  {
    key == [] || (key[0] == 0 && AllZero(key[1..]))
  }

  lemma {:induction false} ZeroIsNotNewer(key: seq<nat>)
    ensures NotNewer(key, []) <==> AllZero(key)
  {
    if key != [] {
      ZeroIsNotNewer(key[1..]);
    }
  }

  /** The ranking puts an older version ahead of a newer one exactly when the older key is
      a proper prefix of the newer one and the remaining components are not all 0. */
  lemma {:induction false} MisorderedExactly(a: seq<nat>, b: seq<nat>)
    ensures LexLe(Negated(a), Negated(b)) && !NotNewer(b, a)
            <==> |a| < |b| && a == b[..|a|] && !AllZero(b[|a|..])
  {
    if a == [] {
      ZeroIsNotNewer(b);
      assert b[0..] == b;
    } else if b != [] {
      MisorderedExactly(a[1..], b[1..]);
      assert Negated(a)[1..] == Negated(a[1..]) && Negated(b)[1..] == Negated(b[1..]);
      PrefixStep(a, b);
    }
  }

  lemma PrefixStep(a: seq<nat>, b: seq<nat>)
    requires a != [] && b != []
    ensures |a| < |b| ==> b[|a|..] == b[1..][|a| - 1..]
    ensures |a| < |b| ==> (a == b[..|a|] <==> a[0] == b[0] && a[1..] == b[1..][..|a| - 1])
  {
    if |a| < |b| {
      assert a == [a[0]] + a[1..] && b[..|a|] == [b[0]] + b[1..][..|a| - 1];
    }
  }

  lemma NewestFirstForEqualCounts(f: Feature, g: Feature)
    requires f.manifest.trust == g.manifest.trust
    requires |SemverKey(f.manifest.version)| == |SemverKey(g.manifest.version)|
    requires BaselineLe(f, g)
    ensures NotNewer(SemverKey(g.manifest.version), SemverKey(f.manifest.version))
  {
    MisorderedExactly(SemverKey(f.manifest.version), SemverKey(g.manifest.version));
  }

  predicate MoreTrusted(t: Trust, u: Trust)
  {
    (t == Official && u != Official) || (t == Verified && u == Community)
  }

  /** a sorts alphabetically before b: they part at a smaller character, or b goes on. */
  ghost predicate Alphabetic(a: string, b: string)
  {
    exists p, x, y :: a == p + x && b == p + y && y != "" && (x == "" || x[0] < y[0])
  }

  lemma {:induction false} PartAt(p: string, x: string, y: string)
    requires y != "" && (x == "" || x[0] < y[0])
    ensures LexLe(Codes(p + x), Codes(p + y)) && !LexLe(Codes(p + y), Codes(p + x))
  {
    if p == "" {
      assert p + x == x && p + y == y;
      assert Codes(y)[0] == y[0] as int && (x != "" ==> Codes(x)[0] == x[0] as int);
    } else {
      PartAt(p[1..], x, y);
      CodesTail(p, x);
      CodesTail(p, y);
    }
  }

  lemma CodesTail(p: string, x: string)
    requires p != ""
    ensures Codes(p + x) != [] && Codes(p + x)[0] == p[0] as int && Codes(p + x)[1..] == Codes(p[1..] + x)
  {
    assert (p + x)[1..] == p[1..] + x;
  }

  lemma AlphabeticCodes(a: string, b: string)
    requires Alphabetic(a, b)
    ensures LexLe(Codes(a), Codes(b)) && !LexLe(Codes(b), Codes(a))
  {
    var p, x, y :| a == p + x && b == p + y && y != "" && (x == "" || x[0] < y[0]);
    PartAt(p, x, y);
  }

  /** What puts f strictly ahead of g whatever else they are: more trust, or with equal trust and
      equal version components the alphabetically smaller vendor. */
  lemma BaselineAhead(f: Feature, g: Feature)
    requires || MoreTrusted(f.manifest.trust, g.manifest.trust)
             || (&& f.manifest.trust == g.manifest.trust
                 && SemverKey(f.manifest.version) == SemverKey(g.manifest.version)
                 && Alphabetic(f.manifest.vendor, g.manifest.vendor))
    ensures BaselineLe(f, g) && !BaselineLe(g, f)
  {
    if f.manifest.trust == g.manifest.trust {
      AlphabeticCodes(f.manifest.vendor, g.manifest.vendor);
      LexTotal(NewestKey(f), NewestKey(g));
    }
  }

  /** So they come in this order in every ranked list that holds both. */
  lemma RankedAhead(fs: seq<Feature>, i: nat, j: nat)
    requires var r := RankFeatures(fs);
             && i < |r| && j < |r|
             && (|| MoreTrusted(r[i].manifest.trust, r[j].manifest.trust)
                 || (&& r[i].manifest.trust == r[j].manifest.trust
                     && SemverKey(r[i].manifest.version) == SemverKey(r[j].manifest.version)
                     && Alphabetic(r[i].manifest.vendor, r[j].manifest.vendor)))
    ensures i < j
  {
    var r := RankFeatures(fs);
    BaselineAhead(r[i], r[j]);
    BaselineIsPreorder();
    SortSorts(fs, BaselineLe);
  }

  // ----- filtering -----

  function Filter<T>(s: seq<T>, p: T -> bool): (r: seq<T>)
    ensures |r| <= |s|
  {
    if s == [] then [] else (if p(s[0]) then [s[0]] else []) + Filter(s[1..], p)
  }

  lemma {:induction false} FilterSorted<T>(s: seq<T>, p: T -> bool, le: (T, T) -> bool)
    requires Sorted(s, le)
    ensures Sorted(Filter(s, p), le)
  {
    if s != [] {
      FilterSorted(s[1..], p, le);
      forall j | 0 <= j < |Filter(s[1..], p)| ensures le(s[0], Filter(s[1..], p)[j]) {
        FilterMembers(s[1..], p, Filter(s[1..], p)[j]);
      }
    }
  }

  lemma {:induction false} FilterMembers<T>(s: seq<T>, p: T -> bool, x: T)
    ensures x in Filter(s, p) <==> x in s && p(x)
  {
    if s != [] {
      FilterMembers(s[1..], p, x);
      assert s == [s[0]] + s[1..];
    }
  }

  // ----- resolution -----

  function Provides(capability: string): Feature -> bool
  {
    (f: Feature) => f.manifest.capability == capability
  }

  function SoldBy(vendor: string): Feature -> bool
  {
    (f: Feature) => f.manifest.vendor == vendor
  }

  function InRange(spec: string): Feature -> bool
  {
    (f: Feature) => MatchVersion(f.manifest.version, spec)
  }

  /** A pin counts only when it is present and not the empty string. */
  predicate Pinned(pin: Option<string>) { pin.Some? && pin.value != "" }

  /** The providers of a capability that satisfy the pins, in list order. */
  function Candidates(
    fs: seq<Feature>, capability: string, vendor: Option<string>, version: Option<string>): (r: seq<Feature>)
  {
    var c0 := Filter(fs, Provides(capability));
    var c1 := if Pinned(vendor) then Filter(c0, SoldBy(vendor.value)) else c0;
    if Pinned(version) then Filter(c1, InRange(version.value)) else c1
  }

  predicate Admissible(f: Feature, capability: string, vendor: Option<string>, version: Option<string>)
  {
    && f.manifest.capability == capability
    && (vendor == None || vendor == Some("") || vendor == Some(f.manifest.vendor))
    && (version == None || version == Some("") || MatchVersion(f.manifest.version, version.value))
  }

  function ResolveFeature(
    fs: seq<Feature>, capability: string, vendor: Option<string>, version: Option<string>): (r: Option<Feature>)
  {
    var ranked := RankFeatures(Candidates(fs, capability, vendor, version));
    if ranked == [] then None else Some(ranked[0])
  }

  lemma CandidatesMembers(
    fs: seq<Feature>, capability: string, vendor: Option<string>, version: Option<string>, f: Feature)
    ensures f in Candidates(fs, capability, vendor, version) <==> f in fs && Admissible(f, capability, vendor, version)
  {
    var c0 := Filter(fs, Provides(capability));
    FilterMembers(fs, Provides(capability), f);
    if Pinned(vendor) {
      FilterMembers(c0, SoldBy(vendor.value), f);
    }
    var c1 := if Pinned(vendor) then Filter(c0, SoldBy(vendor.value)) else c0;
    if Pinned(version) {
      FilterMembers(c1, InRange(version.value), f);
    }
  }

  /** Resolution fails exactly when nothing is admissible, and otherwise returns an
      admissible feature that no other admissible feature beats. */
  lemma ResolvePicksBest(fs: seq<Feature>, capability: string, vendor: Option<string>, version: Option<string>)
    ensures var r := ResolveFeature(fs, capability, vendor, version);
            match r
            case None => forall f :: f in fs ==> !Admissible(f, capability, vendor, version)
            case Some(b) => && b in fs && Admissible(b, capability, vendor, version)
                            && forall f :: f in fs && Admissible(f, capability, vendor, version) ==> BaselineLe(b, f)
  {
    var c := Candidates(fs, capability, vendor, version);
    forall f ensures f in c <==> f in fs && Admissible(f, capability, vendor, version) {
      CandidatesMembers(fs, capability, vendor, version, f);
    }
    SortPermutes(c, BaselineLe);
    if c != [] {
      BaselineIsPreorder();
      SortHeadIsMinimum(c, BaselineLe);
    }
  }

  /** Two catalogs listing the same features in different orders resolve to features with
      equal keys, hence to the same feature when keys are distinct. */
  lemma ResolveIgnoresListOrder(
    fs: seq<Feature>, gs: seq<Feature>, capability: string, vendor: Option<string>, version: Option<string>)
    requires multiset(fs) == multiset(gs)
    ensures var r := ResolveFeature(fs, capability, vendor, version);
            var q := ResolveFeature(gs, capability, vendor, version);
            && (r.Some? <==> q.Some?)
            && (r.Some? ==> SameKey(r.value, q.value) && (DistinctKeys(fs) ==> r == q))
  {
    ResolvePicksBest(fs, capability, vendor, version);
    ResolvePicksBest(gs, capability, vendor, version);
    assert forall f :: f in fs <==> f in multiset(fs);
    assert forall f :: f in gs <==> f in multiset(gs);
    var r, q := ResolveFeature(fs, capability, vendor, version), ResolveFeature(gs, capability, vendor, version);
    if r.Some? && q.Some? {
      BaselineIsTotal(r.value, q.value);
    }
  }

  predicate NameLe(f: Feature, g: Feature)
  {
    LexLe(Codes(f.manifest.name), Codes(g.manifest.name))
  }

  /** `catalog.list()`: all features, by name. */
  function ListByName(fs: seq<Feature>): (r: seq<Feature>)
  {
    Sort(fs, NameLe)
  }

  // ----- identity -----

  /** Vendors without `/` and names without `@` make the id string injective. */
  lemma IdIsInjective(f: Feature, g: Feature)
    requires '/' !in f.manifest.vendor && '/' !in g.manifest.vendor
    requires '@' !in f.manifest.name && '@' !in g.manifest.name
    requires FeatureId(f) == FeatureId(g)
    ensures f.manifest.vendor == g.manifest.vendor
    ensures f.manifest.name == g.manifest.name
    ensures f.manifest.version == g.manifest.version
  {
    var m, n := f.manifest, g.manifest;
    assert FeatureId(f) == m.vendor + ['/'] + (m.name + ['@'] + m.version);
    assert FeatureId(g) == n.vendor + ['/'] + (n.name + ['@'] + n.version);
    FirstSeparator(m.vendor, '/', m.name + ['@'] + m.version, n.vendor, n.name + ['@'] + n.version);
    FirstSeparator(m.name, '@', m.version, n.name, n.version);
  }

  lemma FirstSeparator(a: string, c: char, b: string, a': string, b': string)
    requires c !in a && c !in a' && a + [c] + b == a' + [c] + b'
    ensures a == a' && b == b'
  {
    var s, s' := a + [c] + b, a' + [c] + b';
    assert s[|a|] == c && s'[|a'|] == c;
    assert s[..|a|] == a && s'[..|a'|] == a';
    assert s[|a| + 1..] == b && s'[|a'| + 1..] == b';
  }

  function Identity(f: Feature): (r: (string, string, string))
  {
    (f.manifest.vendor, f.manifest.name, f.manifest.version)
  }

  /** A `/` at i and a later `@` at j: one way to read an id. */
  predicate ReadsAt(id: string, i: int, j: int)
  {
    0 <= i < j < |id| && id[i] == '/' && id[j] == '@'
  }

  ghost predicate Ambiguous(id: string)
  {
    exists i, j, k, l :: ReadsAt(id, i, j) && ReadsAt(id, k, l) && (i != k || j != l)
  }

  /** The reading a feature intends. */
  lemma OwnReading(f: Feature)
    ensures var m, id := f.manifest, FeatureId(f);
            var i := |m.vendor|;
            var j := i + 1 + |m.name|;
            ReadsAt(id, i, j) && id[..i] == m.vendor && id[i + 1..j] == m.name && id[j + 1..] == m.version
  {}

  lemma OtherReading(f: Feature, i: int, j: int) returns (g: Feature)
    requires ReadsAt(FeatureId(f), i, j) && (i != |f.manifest.vendor| || j != i + 1 + |f.manifest.name|)
    ensures FeatureId(g) == FeatureId(f) && Identity(g) != Identity(f)
  {
    var id := FeatureId(f);
    g := f.(manifest := f.manifest.(vendor := id[..i], name := id[i + 1..j], version := id[j + 1..]));
    assert id == id[..i] + "/" + id[i + 1..j] + "@" + id[j + 1..];
  }

  /** Some other vendor, name and version share a feature's id exactly when the id holds more
      than one pair of a `/` and a later `@`. */
  lemma IdIsSharedExactly(f: Feature)
    ensures (exists g :: FeatureId(g) == FeatureId(f) && Identity(g) != Identity(f)) <==> Ambiguous(FeatureId(f))
  {
    var id := FeatureId(f);
    OwnReading(f);
    if Ambiguous(id) {
      var i, j, k, l :| ReadsAt(id, i, j) && ReadsAt(id, k, l) && (i != k || j != l);
      if i == |f.manifest.vendor| && j == i + 1 + |f.manifest.name| {
        var g := OtherReading(f, k, l);
      } else {
        var g := OtherReading(f, i, j);
      }
    }
    if g :| FeatureId(g) == id && Identity(g) != Identity(f) {
      OwnReading(g);
    }
  }

  /** So two different features can share an id. */
  lemma IdCollides()
    ensures var f := Feature(Manifest("c", "1", "", "a/b", "cap", Community), None);
            var g := Feature(Manifest("b/c", "1", "", "a", "cap", Community), None);
            FeatureId(f) == "a/b/c@1" == FeatureId(g) && Identity(f) != Identity(g)
  {
    assert "a/b" + "/" + "c" + "@" + "1" == "a/b/c@1" == "a" + "/" + "b/c" + "@" + "1";
  }

  // ----- capability summaries -----

  datatype Summary = Summary(
    capability: string, description: string, providerCount: nat,
    vendors: seq<string>, preferred: string)

  function Vendors(fs: seq<Feature>): (r: seq<string>)
    ensures |r| == |fs|
  {
    seq(|fs|, i requires 0 <= i < |fs| => fs[i].manifest.vendor)
  }

  predicate StringLe(a: string, b: string) { LexLe(Codes(a), Codes(b)) }

  lemma StringOrder()
    ensures TotalPreorder(StringLe)
  {
    forall a, b ensures StringLe(a, b) || StringLe(b, a) {
      LexTotal(Codes(a), Codes(b));
    }
    forall a, b, c | StringLe(a, b) && StringLe(b, c) ensures StringLe(a, c) {
      LexTransitive(Codes(a), Codes(b), Codes(c));
    }
  }

  function ProviderTotal(ss: seq<Summary>): (n: nat)
  {
    if ss == [] then 0 else ss[0].providerCount + ProviderTotal(ss[1..])
  }

  function GroupTotal(caps: seq<string>, fs: seq<Feature>): (n: nat)
  {
    if caps == [] then 0 else |Filter(fs, Provides(caps[0]))| + GroupTotal(caps[1..], fs)
  }

  lemma {:induction false} GroupTotalAppend(caps: seq<string>, more: seq<string>, fs: seq<Feature>)
    ensures GroupTotal(caps + more, fs) == GroupTotal(caps, fs) + GroupTotal(more, fs)
  {
    if caps == [] {
      assert caps + more == more;
    } else {
      GroupTotalAppend(caps[1..], more, fs);
      assert (caps + more)[1..] == caps[1..] + more;
    }
  }

  lemma {:induction false} GroupTotalStep(caps: seq<string>, fs: seq<Feature>)
    requires Distinct(caps) && fs != []
    ensures GroupTotal(caps, fs) == GroupTotal(caps, fs[1..]) + if fs[0].manifest.capability in caps then 1 else 0
  {
    if caps != [] {
      GroupTotalStep(caps[1..], fs);
      assert caps == [caps[0]] + caps[1..];
    }
  }

  /** Groups by distinct capabilities that cover the list partition it. */
  lemma {:induction false} GroupsPartition(caps: seq<string>, fs: seq<Feature>)
    requires Distinct(caps)
    requires forall f :: f in fs ==> f.manifest.capability in caps
    ensures GroupTotal(caps, fs) == |fs|
  {
    if fs == [] {
      EmptyGroups(caps);
    } else {
      GroupTotalStep(caps, fs);
      assert fs[0] in fs && forall f :: f in fs[1..] ==> f in fs;
      GroupsPartition(caps, fs[1..]);
    }
  }

  lemma {:induction false} EmptyGroups(caps: seq<string>)
    ensures GroupTotal(caps, []) == 0
  {
    if caps != [] {
      EmptyGroups(caps[1..]);
    }
  }

  lemma {:induction false} FilterSnoc<T>(s: seq<T>, x: T, p: T -> bool)
    ensures Filter(s + [x], p) == Filter(s, p) + if p(x) then [x] else []
  {
    if s == [] {
      assert [x][1..] == [];
    } else {
      FilterSnoc(s[1..], x, p);
      assert (s + [x])[1..] == s[1..] + [x];
    }
  }

  /** Every feature of fs is in the group of its capability, in list order; no group is empty. */
  ghost predicate Grouped(caps: seq<string>, byCap: map<string, seq<Feature>>, fs: seq<Feature>)
  {
    && Distinct(caps) && (forall c :: c in byCap <==> c in caps)
    && (forall f :: f in fs ==> f.manifest.capability in caps)
    && (forall c :: c in caps ==> byCap[c] == Filter(fs, Provides(c)) && byCap[c] != [])
  }

  lemma GroupsGrow(caps: seq<string>, byCap: map<string, seq<Feature>>, fs: seq<Feature>, f: Feature)
    requires Grouped(caps, byCap, fs)
    ensures var cap := f.manifest.capability;
            && (cap in caps ==> Grouped(caps, byCap[cap := byCap[cap] + [f]], fs + [f]))
            && (cap !in caps ==> Grouped(caps + [cap], byCap[cap := [f]], fs + [f]))
  {
    var cap := f.manifest.capability;
    forall c ensures Filter(fs + [f], Provides(c)) == Filter(fs, Provides(c)) + if c == cap then [f] else [] {
      FilterSnoc(fs, f, Provides(c));
    }
    if cap !in caps {
      FilterNone(fs, Provides(cap));
    }
  }

  /** The first loop of the summary: features grouped by capability, in list order. */
  method GroupByCapability(fs: seq<Feature>) returns (caps: seq<string>, byCap: map<string, seq<Feature>>)
    ensures Grouped(caps, byCap, fs)
  {
    caps, byCap := [], map[];
    for i := 0 to |fs|
      invariant Grouped(caps, byCap, fs[..i])
    {
      var cap := fs[i].manifest.capability;
      assert fs[..i + 1] == fs[..i] + [fs[i]];
      GroupsGrow(caps, byCap, fs[..i], fs[i]);
      if cap !in byCap {
        caps := caps + [cap];
        byCap := byCap[cap := [fs[i]]];
      } else {
        byCap := byCap[cap := byCap[cap] + [fs[i]]];
      }
    }
    assert fs[..|fs|] == fs;
  }

  lemma {:induction false} FilterNone<T>(s: seq<T>, p: T -> bool)
    requires forall x :: x in s ==> !p(x)
    ensures Filter(s, p) == []
  {
    if s != [] {
      assert s[0] in s && forall x :: x in s[1..] ==> x in s;
      FilterNone(s[1..], p);
    }
  }

  ghost predicate Describes(sm: Summary, fs: seq<Feature>)
  {
    var group := Filter(fs, Provides(sm.capability));
    && sm.providerCount == |group|
    && sm.vendors == Vendors(RankFeatures(group))
    && var best := ResolveFeature(fs, sm.capability, None, None);
       best.Some? && sm.preferred == FeatureId(best.value) && sm.description == best.value.manifest.description
  }

  /** One summary per capability, in ascending order; `preferred` is what resolution without
      pins picks, and the provider counts add up to the number of features. */
  method SummarizeCapabilities(fs: seq<Feature>) returns (ss: seq<Summary>)
    ensures forall i, j :: 0 <= i < j < |ss| ==>
              StringLe(ss[i].capability, ss[j].capability) && ss[i].capability != ss[j].capability
    ensures forall f :: f in fs ==> exists i :: 0 <= i < |ss| && ss[i].capability == f.manifest.capability
    ensures forall i :: 0 <= i < |ss| ==> Describes(ss[i], fs)
    ensures ProviderTotal(ss) == |fs|
  {
    var caps, byCap := GroupByCapability(fs);
    var order := Sort(caps, StringLe);
    CapabilityOrder(caps);
    ss := SummarizeInOrder(order, byCap, fs);
    GroupsPartition(order, fs);
    forall f | f in fs ensures exists i :: 0 <= i < |ss| && ss[i].capability == f.manifest.capability {
      assert f.manifest.capability in order;
    }
  }

  /** Each summary describes the capability at its place. */
  ghost predicate DescribeInOrder(ss: seq<Summary>, order: seq<string>, fs: seq<Feature>)
  {
    |ss| <= |order| && forall i :: 0 <= i < |ss| ==> ss[i].capability == order[i] && Describes(ss[i], fs)
  }

  lemma DescribeNext(ss: seq<Summary>, sm: Summary, order: seq<string>, fs: seq<Feature>)
    requires DescribeInOrder(ss, order, fs) && |ss| < |order|
    requires sm.capability == order[|ss|] && Describes(sm, fs)
    ensures DescribeInOrder(ss + [sm], order, fs)
  {}

  method SummarizeInOrder(order: seq<string>, byCap: map<string, seq<Feature>>, ghost fs: seq<Feature>)
    returns (ss: seq<Summary>)
    requires forall c :: c in order ==> c in byCap && byCap[c] == Filter(fs, Provides(c)) && byCap[c] != []
    ensures |ss| == |order| && DescribeInOrder(ss, order, fs) && ProviderTotal(ss) == GroupTotal(order, fs)
  {
    ss := [];
    for i := 0 to |order|
      invariant |ss| == i && DescribeInOrder(ss, order, fs) && ProviderTotal(ss) == GroupTotal(order[..i], fs)
    {
      var cap := order[i];
      assert cap in order;
      var sm := Summarize(cap, byCap[cap], fs);
      TotalsStep(ss, sm, order, i, fs);
      DescribeNext(ss, sm, order, fs);
      ss := ss + [sm];
    }
    assert order[..|order|] == order;
  }

  lemma TotalsStep(ss: seq<Summary>, sm: Summary, order: seq<string>, i: nat, fs: seq<Feature>)
    requires i < |order| && sm.providerCount == |Filter(fs, Provides(order[i]))|
    requires ProviderTotal(ss) == GroupTotal(order[..i], fs)
    ensures ProviderTotal(ss + [sm]) == GroupTotal(order[..i + 1], fs)
  {
    ProviderTotalSnoc(ss, sm);
    assert order[..i + 1] == order[..i] + [order[i]];
    GroupTotalAppend(order[..i], [order[i]], fs);
    assert [order[i]][1..] == [] && GroupTotal([order[i]], fs) == sm.providerCount + GroupTotal([], fs);
  }

  method Summarize(cap: string, group: seq<Feature>, ghost fs: seq<Feature>) returns (sm: Summary)
    requires group == Filter(fs, Provides(cap)) && group != []
    ensures sm.capability == cap && Describes(sm, fs)
  {
    var ranked := RankFeatures(group);
    SortPermutes(group, BaselineLe);
    sm := Summary(cap, ranked[0].manifest.description, |ranked|, Vendors(ranked), FeatureId(ranked[0]));
  }

  lemma CapabilityOrder(caps: seq<string>)
    requires Distinct(caps)
    ensures var order := Sort(caps, StringLe);
            && Sorted(order, StringLe) && Distinct(order)
            && forall c :: c in order <==> c in caps
  {
    var order := Sort(caps, StringLe);
    StringOrder();
    SortSorts(caps, StringLe);
    SortPermutes(caps, StringLe);
    DistinctPermutes(caps, order);
    assert forall c :: c in order <==> c in multiset(order);
    assert forall c :: c in caps <==> c in multiset(caps);
  }

  lemma {:induction false} ProviderTotalSnoc(ss: seq<Summary>, sm: Summary)
    ensures ProviderTotal(ss + [sm]) == ProviderTotal(ss) + sm.providerCount
  {
    if ss == [] {
      assert [sm][1..] == [];
    } else {
      ProviderTotalSnoc(ss[1..], sm);
      assert (ss + [sm])[1..] == ss[1..] + [sm];
    }
  }
}

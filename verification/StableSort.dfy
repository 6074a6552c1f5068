/** Python's `sorted`: the stable sort every ranking in the gateway is built on.
    `Sort` is characterised completely: it is an ordered permutation that keeps the
    input order of elements that compare equal, and it is the only such sequence. */
module StableSort {

  ghost predicate TotalPreorder<T(!new)>(le: (T, T) -> bool)
  {
    && (forall x, y :: le(x, y) || le(y, x))
    && (forall x, y, z :: le(x, y) && le(y, z) ==> le(x, z))
  }

  ghost predicate Sorted<T>(s: seq<T>, le: (T, T) -> bool)
  {
    forall i, j :: 0 <= i < j < |s| ==> le(s[i], s[j])
  }

  predicate Distinct<T(==)>(s: seq<T>)
  {
    forall i, j :: 0 <= i < j < |s| ==> s[i] != s[j]
  }

  /** Places x in front of the first element it does not exceed. */
  function Insert<T>(x: T, s: seq<T>, le: (T, T) -> bool): (r: seq<T>)
  {
    if s == [] then [x]
    else if le(x, s[0]) then [x] + s
    else [s[0]] + Insert(x, s[1..], le)
  }

  function Sort<T>(s: seq<T>, le: (T, T) -> bool): (r: seq<T>)
  {
    if s == [] then [] else Insert(s[0], Sort(s[1..], le), le)
  }

  /** The elements that compare equal to k, in sequence order. */
  ghost function Ties<T>(s: seq<T>, k: T, le: (T, T) -> bool): (r: seq<T>)
  {
    if s == [] then []
    else (if le(s[0], k) && le(k, s[0]) then [s[0]] else []) + Ties(s[1..], k, le)
  }

  lemma {:induction false} InsertPermutes<T>(x: T, s: seq<T>, le: (T, T) -> bool)
    ensures multiset(Insert(x, s, le)) == multiset(s) + multiset{x}
  {
    if s != [] {
      assert s == [s[0]] + s[1..];
      if !le(x, s[0]) {
        InsertPermutes(x, s[1..], le);
      }
    }
  }

  lemma {:induction false} SortPermutes<T>(s: seq<T>, le: (T, T) -> bool)
    ensures multiset(Sort(s, le)) == multiset(s)
    ensures |Sort(s, le)| == |s|
  {
    if s != [] {
      assert s == [s[0]] + s[1..];
      SortPermutes(s[1..], le);
      InsertPermutes(s[0], Sort(s[1..], le), le);
    }
    assert |multiset(Sort(s, le))| == |multiset(s)|;
  }

  lemma {:induction false} InsertSorts<T(!new)>(x: T, s: seq<T>, le: (T, T) -> bool)
    requires TotalPreorder(le) && Sorted(s, le)
    ensures Sorted(Insert(x, s, le), le)
  {
    if s != [] && !le(x, s[0]) {
      InsertSorts(x, s[1..], le);
      InsertPermutes(x, s[1..], le);
      var t := Insert(x, s[1..], le);
      forall j | 0 <= j < |t| ensures le(s[0], t[j]) {
        assert t[j] in multiset(t);
        assert t[j] == x || t[j] in s[1..];
      }
    } else if s != [] {
      forall j | 0 <= j < |s| ensures le(x, s[j]) {
        assert le(s[0], s[j]);
      }
    }
  }

  lemma {:induction false} SortSorts<T(!new)>(s: seq<T>, le: (T, T) -> bool)
    requires TotalPreorder(le)
    ensures Sorted(Sort(s, le), le)
  {
    if s != [] {
      SortSorts(s[1..], le);
      InsertSorts(s[0], Sort(s[1..], le), le);
    }
  }

  lemma {:induction false} InsertTies<T(!new)>(x: T, s: seq<T>, k: T, le: (T, T) -> bool)
    requires TotalPreorder(le)
    ensures Ties(Insert(x, s, le), k, le) == Ties([x] + s, k, le)
  {
    assert ([x] + s)[1..] == s;
    if s != [] && !le(x, s[0]) {
      InsertTies(x, s[1..], k, le);
      assert ([x] + s[1..])[1..] == s[1..];
      assert ([s[0]] + Insert(x, s[1..], le))[1..] == Insert(x, s[1..], le);
    }
  }

  /** Stability: elements that compare equal keep their input order. */
  lemma {:induction false} SortIsStable<T(!new)>(s: seq<T>, k: T, le: (T, T) -> bool)
    requires TotalPreorder(le)
    ensures Ties(Sort(s, le), k, le) == Ties(s, k, le)
  {
    if s != [] {
      SortIsStable(s[1..], k, le);
      InsertTies(s[0], Sort(s[1..], le), k, le);
      assert ([s[0]] + Sort(s[1..], le))[1..] == Sort(s[1..], le);
    }
  }

  lemma {:induction false} TiesOrigin<T(!new)>(s: seq<T>, k: T, le: (T, T) -> bool)
    requires TotalPreorder(le)
    ensures forall y :: y in Ties(s, k, le) <==> y in s && le(y, k) && le(k, y)
  {
    if s != [] {
      TiesOrigin(s[1..], k, le);
      assert forall y :: y in s <==> y == s[0] || y in s[1..];
    }
  }

  lemma SameTiesSameMinimum<T(!new)>(a: seq<T>, b: seq<T>, le: (T, T) -> bool)
    requires TotalPreorder(le) && Sorted(a, le) && Sorted(b, le) && a != []
    requires forall k :: Ties(a, k, le) == Ties(b, k, le)
    ensures b != [] && a[0] == b[0]
  {
    TiesOrigin(a, a[0], le);
    TiesOrigin(b, a[0], le);
    assert a[0] in Ties(b, a[0], le);
    TiesOrigin(a, b[0], le);
    TiesOrigin(b, b[0], le);
    assert b[0] in Ties(a, b[0], le);
    assert le(b[0], a[0]) && le(a[0], b[0]);
    assert Ties(a, a[0], le)[0] == a[0];
    assert Ties(b, a[0], le)[0] == b[0];
  }

  /** Two ordered sequences whose tie groups read the same are the same sequence. */
  lemma {:induction false} SortedStableUnique<T(!new)>(a: seq<T>, b: seq<T>, le: (T, T) -> bool)
    requires TotalPreorder(le) && Sorted(a, le) && Sorted(b, le)
    requires forall k :: Ties(a, k, le) == Ties(b, k, le)
    ensures a == b
  {
    if a == [] && b == [] {
    } else if a == [] {
      SameTiesSameMinimum(b, a, le);
    } else {
      SameTiesSameMinimum(a, b, le);
      forall k ensures Ties(a[1..], k, le) == Ties(b[1..], k, le) {
        var h := if le(a[0], k) && le(k, a[0]) then [a[0]] else [];
        assert h + Ties(a[1..], k, le) == Ties(a, k, le) == Ties(b, k, le) == h + Ties(b[1..], k, le);
        assert (h + Ties(a[1..], k, le))[|h|..] == Ties(a[1..], k, le);
        assert (h + Ties(b[1..], k, le))[|h|..] == Ties(b[1..], k, le);
      }
      SortedStableUnique(a[1..], b[1..], le);
    }
  }

  /** Whatever algorithm is used, an ordered and stable rearrangement of s is Sort(s). */
  lemma AnyStableSortIsSort<T(!new)>(s: seq<T>, r: seq<T>, le: (T, T) -> bool)
    requires TotalPreorder(le) && Sorted(r, le)
    requires forall k :: Ties(r, k, le) == Ties(s, k, le)
    ensures r == Sort(s, le)
  {
    SortSorts(s, le);
    forall k ensures Ties(Sort(s, le), k, le) == Ties(r, k, le) {
      SortIsStable(s, k, le);
    }
    SortedStableUnique(r, Sort(s, le), le);
  }

  /** Without ties among its elements an ordered sequence is fixed by its contents alone. */
  lemma {:induction false} SortedUniqueWithoutTies<T(!new)>(a: seq<T>, b: seq<T>, le: (T, T) -> bool)
    requires Sorted(a, le) && Sorted(b, le)
    requires multiset(a) == multiset(b)
    requires forall x, y :: x in a && y in a && le(x, y) && le(y, x) ==> x == y
    ensures a == b
  {
    assert |multiset(a)| == |a| && |multiset(b)| == |b|;
    if a != [] {
      assert a[0] in multiset(b) && b[0] in multiset(a);
      assert a[0] == b[0];
      assert a == [a[0]] + a[1..] && b == [b[0]] + b[1..];
      assert multiset(a[1..]) == multiset(a) - multiset{a[0]};
      assert multiset(b[1..]) == multiset(b) - multiset{b[0]};
      SortedUniqueWithoutTies(a[1..], b[1..], le);
    }
  }

  /** The first element of a sort is a minimum. */
  lemma SortHeadIsMinimum<T(!new)>(s: seq<T>, le: (T, T) -> bool)
    requires TotalPreorder(le) && s != []
    ensures Sort(s, le) != [] && Sort(s, le)[0] in s
    ensures forall x :: x in s ==> le(Sort(s, le)[0], x)
  {
    var r := Sort(s, le);
    SortPermutes(s, le);
    SortSorts(s, le);
    assert r[0] in multiset(r);
    forall x | x in s ensures le(r[0], x) {
      assert x in multiset(r);
      var j :| 0 <= j < |r| && r[j] == x;
      assert le(x, x);
    }
  }

  lemma DistinctPermutes<T>(s: seq<T>, r: seq<T>)
    requires multiset(s) == multiset(r) && Distinct(s)
    ensures Distinct(r)
  {
    DistinctCounts(s);
    forall i, j | 0 <= i < j < |r| ensures r[i] != r[j] {
      assert r == r[..i] + [r[i]] + r[i + 1..j] + [r[j]] + r[j + 1..];
      assert multiset(r)[r[i]] <= 1;
    }
  }

  lemma {:induction false} DistinctCounts<T>(s: seq<T>)
    requires Distinct(s)
    ensures forall x :: multiset(s)[x] <= 1
  {
    if s != [] {
      assert s == [s[0]] + s[1..];
      DistinctCounts(s[1..]);
      assert s[0] !in s[1..];
      assert s[0] !in multiset(s[1..]);
    }
  }
}

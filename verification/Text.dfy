/** The Python string operations the gateway relies on, over code points. */
module Text {

  datatype Option<+T> = None | Some(value: T)

  /** `str.isspace`, which is also what `str.strip` removes and `\s` matches. */
  predicate IsSpace(c: char)
  {
    var n := c as int;
    9 <= n <= 13 || 28 <= n <= 32 || n == 0x85 || n == 0xA0 || n == 0x1680 || 0x2000 <= n <= 0x200A
    || n == 0x2028 || n == 0x2029 || n == 0x202F || n == 0x205F || n == 0x3000
  }

  predicate AllSpace(s: string)
  {
    forall i :: 0 <= i < |s| ==> IsSpace(s[i])
  }

  predicate StartsWith(s: string, prefix: string)
  {
    |prefix| <= |s| && s[..|prefix|] == prefix
  }

  /** `s.split(c)` for a one-character separator. */
  function Split(s: string, c: char): (r: seq<string>)
    ensures |r| >= 1
  {
    if s == "" then [""]
    else
      var rest := Split(s[1..], c);
      if s[0] == c then [""] + rest else [[s[0]] + rest[0]] + rest[1..]
  }

  function DropWhile(s: string, p: char -> bool): (r: string)
    ensures |r| <= |s|
  {
    if s == "" || !p(s[0]) then s else DropWhile(s[1..], p)
  }

  function TakeWhile(s: string, p: char -> bool): (r: string)
    ensures |r| <= |s|
  {
    if s == "" || !p(s[0]) then "" else [s[0]] + TakeWhile(s[1..], p)
  }

  function DropTrailing(s: string, p: char -> bool): (r: string)
    ensures |r| <= |s|
  {
    if s == "" || !p(s[|s| - 1]) then s else DropTrailing(s[..|s| - 1], p)
  }

  /** `s.strip()` for p = IsSpace, `s.strip('"')` for p = IsQuote. */
  function Strip(s: string, p: char -> bool): (r: string)
  {
    DropTrailing(DropWhile(s, p), p)
  }

  function JoinWith(parts: seq<string>, sep: string): (r: string)
  {
    if parts == [] then ""
    else if |parts| == 1 then parts[0]
    else parts[0] + sep + JoinWith(parts[1..], sep)
  }

  // ----- splitting -----

  lemma {:induction false} SplitWithout(a: string, c: char)
    requires c !in a
    ensures Split(a, c) == [a]
  {
    if a != "" {
      SplitWithout(a[1..], c);
      assert a == [a[0]] + a[1..];
    }
  }

  lemma {:induction false} JoinSplit(s: string, c: char)
    ensures JoinWith(Split(s, c), [c]) == s
    ensures forall i :: 0 <= i < |Split(s, c)| ==> c !in Split(s, c)[i]
  {
    if s != "" {
      var rest := Split(s[1..], c);
      JoinSplit(s[1..], c);
      assert s == [s[0]] + s[1..];
      if s[0] == c {
        assert ([""] + rest)[1..] == rest;
        assert "" + [c] + JoinWith(rest, [c]) == [c] + JoinWith(rest, [c]);
      } else {
        assert ([[s[0]] + rest[0]] + rest[1..])[1..] == rest[1..];
      }
    }
  }

  /** Splitting gives back the parts that were joined. */
  lemma {:induction false} SplitJoin(parts: seq<string>, c: char)
    requires parts != [] && forall i :: 0 <= i < |parts| ==> c !in parts[i]
    ensures Split(JoinWith(parts, [c]), c) == parts
  {
    if |parts| == 1 {
      SplitWithout(parts[0], c);
    } else {
      SplitJoin(parts[1..], c);
      SplitAtFirst(parts[0], c, JoinWith(parts[1..], [c]));
      assert parts == [parts[0]] + parts[1..];
    }
  }

  lemma {:induction false} SplitAtFirst(a: string, c: char, b: string)
    requires c !in a
    ensures Split(a + [c] + b, c) == [a] + Split(b, c)
  {
    var s := a + [c] + b;
    if a == "" {
      assert s[1..] == b;
    } else {
      SplitAtFirst(a[1..], c, b);
      assert s[1..] == a[1..] + [c] + b;
      assert a == [a[0]] + a[1..];
    }
  }

  // ----- scanning -----

  lemma {:induction false} TakeThenDrop(s: string, p: char -> bool)
    ensures s == TakeWhile(s, p) + DropWhile(s, p)
  {
    if s != "" && p(s[0]) {
      var t, d := TakeWhile(s[1..], p), DropWhile(s[1..], p);
      TakeThenDrop(s[1..], p);
      assert s[1..] == t + d;
      assert ([s[0]] + t) + d == [s[0]] + (t + d) == s;
    }
  }

  lemma {:induction false} TakenSatisfy(s: string, p: char -> bool, i: nat)
    requires i < |TakeWhile(s, p)|
    ensures p(TakeWhile(s, p)[i])
  {
    if i > 0 {
      TakenSatisfy(s[1..], p, i - 1);
    }
  }

  lemma {:induction false} DropStops(s: string, p: char -> bool)
    ensures DropWhile(s, p) == "" || !p(DropWhile(s, p)[0])
  {
    if s != "" && p(s[0]) {
      DropStops(s[1..], p);
    }
  }

  lemma ScanSplits(s: string, p: char -> bool)
    ensures s == TakeWhile(s, p) + DropWhile(s, p)
    ensures forall i :: 0 <= i < |TakeWhile(s, p)| ==> p(TakeWhile(s, p)[i])
    ensures DropWhile(s, p) == "" || !p(DropWhile(s, p)[0])
  {
    TakeThenDrop(s, p);
    DropStops(s, p);
    forall i | 0 <= i < |TakeWhile(s, p)| ensures p(TakeWhile(s, p)[i]) {
      TakenSatisfy(s, p, i);
    }
  }

  /** A run of p-characters followed by a non-p-character scans to exactly that run. */
  lemma {:induction false} ScanRun(a: string, b: string, p: char -> bool)
    requires forall i :: 0 <= i < |a| ==> p(a[i])
    requires b == "" || !p(b[0])
    ensures TakeWhile(a + b, p) == a && DropWhile(a + b, p) == b
  {
    if a == "" {
      assert a + b == b;
    } else {
      ScanRun(a[1..], b, p);
      assert (a + b)[1..] == a[1..] + b;
      assert a == [a[0]] + a[1..];
    }
  }

  lemma {:induction false} DropTrailingRun(a: string, b: string, p: char -> bool)
    requires forall i :: 0 <= i < |b| ==> p(b[i])
    requires a == "" || !p(a[|a| - 1])
    ensures DropTrailing(a + b, p) == a
  {
    if b == "" {
      assert a + b == a;
    } else {
      assert (a + b)[..|a + b| - 1] == a + b[..|b| - 1];
      DropTrailingRun(a, b[..|b| - 1], p);
    }
  }

  /** Stripping removes exactly the surrounding runs of p-characters. */
  lemma StripPadding(w1: string, s: string, w2: string, p: char -> bool)
    requires forall i :: 0 <= i < |w1| ==> p(w1[i])
    requires forall i :: 0 <= i < |w2| ==> p(w2[i])
    requires s == "" || (!p(s[0]) && !p(s[|s| - 1]))
    ensures Strip(w1 + s + w2, p) == s
  {
    if s == "" {
      assert w1 + s + w2 == (w1 + w2) + "";
      ScanRun(w1 + w2, "", p);
    } else {
      assert w1 + s + w2 == w1 + (s + w2);
      ScanRun(w1, s + w2, p);
      DropTrailingRun(s, w2, p);
    }
  }

  lemma StripNothing(s: string, p: char -> bool)
    requires s == "" || (!p(s[0]) && !p(s[|s| - 1]))
    ensures Strip(s, p) == s
  {
    StripPadding("", s, "", p);
    assert "" + s + "" == s;
  }

  predicate All(s: string, p: char -> bool)
  {
    forall i :: 0 <= i < |s| ==> p(s[i])
  }

  lemma {:induction false} DropTrailingSound(s: string, p: char -> bool) returns (w: string)
    ensures s == DropTrailing(s, p) + w && All(w, p)
    ensures DropTrailing(s, p) == "" || !p(DropTrailing(s, p)[|DropTrailing(s, p)| - 1])
  {
    if s == "" || !p(s[|s| - 1]) {
      w := "";
      assert s + "" == s;
    } else {
      var init := s[..|s| - 1];
      w := DropTrailingSound(init, p);
      assert s == init + [s[|s| - 1]];
      w := w + [s[|s| - 1]];
    }
  }

  lemma StripSound(s: string, p: char -> bool) returns (w1: string, w2: string)
    ensures s == w1 + Strip(s, p) + w2 && All(w1, p) && All(w2, p)
    ensures var r := Strip(s, p); r == "" || (!p(r[0]) && !p(r[|r| - 1]))
  {
    w1 := TakeWhile(s, p);
    ScanSplits(s, p);
    w2 := DropTrailingSound(DropWhile(s, p), p);
  }

  /** s is r between runs of p-characters, and r neither starts nor ends with one. */
  ghost predicate Padded(s: string, r: string, p: char -> bool)
  {
    && (r == "" || (!p(r[0]) && !p(r[|r| - 1])))
    && exists w1, w2 :: All(w1, p) && All(w2, p) && s == w1 + r + w2
  }

  lemma StripExactly(s: string, r: string, p: char -> bool)
    ensures Strip(s, p) == r <==> Padded(s, r, p)
  {
    if Strip(s, p) == r {
      var w1, w2 := StripSound(s, p);
    }
    if Padded(s, r, p) {
      var w1, w2 :| All(w1, p) && All(w2, p) && s == w1 + r + w2;
      StripPadding(w1, r, w2, p);
    }
  }

  // ----- decimal numbers -----

  predicate IsDigit(c: char) { '0' <= c <= '9' }

  /** `str.isdigit` over ASCII: false for the empty string. */
  predicate IsDigits(s: string)
  {
    s != "" && forall i :: 0 <= i < |s| ==> IsDigit(s[i])
  }

  /** `int(s)` for a string of ASCII digits. */
  function ToNat(s: string): (n: nat)
    requires forall i :: 0 <= i < |s| ==> IsDigit(s[i])
  {
    if s == "" then 0 else assert IsDigit(s[|s| - 1]); 10 * ToNat(s[..|s| - 1]) + (s[|s| - 1] as int - '0' as int)
  }

  /** `str(n)`. */
  function Decimal(n: nat): (s: string)
    ensures IsDigits(s)
  {
    var d := [('0' as int + n % 10) as char];
    if n < 10 then d else Decimal(n / 10) + d
  }

  lemma {:induction false} DecimalRoundTrip(n: nat)
    ensures ToNat(Decimal(n)) == n
  {
    var s := Decimal(n);
    if n >= 10 {
      DecimalRoundTrip(n / 10);
      assert s[..|s| - 1] == Decimal(n / 10);
    } else {
      assert s[..|s| - 1] == "";
    }
  }

  // ----- lexicographic order on strings and integer tuples -----

  function Codes(s: string): (r: seq<int>)
    ensures |r| == |s|
  {
    seq(|s|, i requires 0 <= i < |s| => s[i] as int)
  }

  predicate LexLe(a: seq<int>, b: seq<int>)
  {
    a == [] || (b != [] && (a[0] < b[0] || (a[0] == b[0] && LexLe(a[1..], b[1..]))))
  }

  lemma {:induction false} LexTotal(a: seq<int>, b: seq<int>)
    ensures LexLe(a, b) || LexLe(b, a)
    ensures LexLe(a, b) && LexLe(b, a) ==> a == b
    ensures a == b ==> LexLe(a, b)
  {
    if a != [] && b != [] && a[0] == b[0] {
      LexTotal(a[1..], b[1..]);
      assert a == [a[0]] + a[1..] && b == [b[0]] + b[1..];
    }
  }

  lemma {:induction false} LexTransitive(a: seq<int>, b: seq<int>, c: seq<int>)
    requires LexLe(a, b) && LexLe(b, c)
    ensures LexLe(a, c)
  {
    if a != [] && a[0] == b[0] == c[0] {
      LexTransitive(a[1..], b[1..], c[1..]);
    }
  }

  lemma CodesInjective(a: string, b: string)
    requires Codes(a) == Codes(b)
    ensures a == b
  {
    forall i | 0 <= i < |a| ensures |a| == |b| && a[i] == b[i] {
      assert |Codes(a)| == |Codes(b)|;
      assert Codes(a)[i] == Codes(b)[i];
    }
  }
}

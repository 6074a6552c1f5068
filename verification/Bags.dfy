/** The values of a finite map as a multiset: what a table of open requests holds. */
module Bags {

  ghost function Values<V>(m: map<nat, V>): (b: multiset<V>)
    decreases |m|
  {
    if m == map[] then multiset{}
    else
      var t :| t in m;
      multiset{m[t]} + Values(m - {t})
  }

  lemma TwoAdded<V>(x: V, y: V, b: multiset<V>)
    ensures multiset{x} + (multiset{y} + b) == multiset{y} + (multiset{x} + b)
  {}

  /** Which entry is taken out first does not matter. */
  lemma {:induction false} ValuesPeel<V>(m: map<nat, V>, t: nat)
    requires t in m
    ensures Values(m) == multiset{m[t]} + Values(m - {t})
    decreases |m|
  {
    var k :| k in m && Values(m) == multiset{m[k]} + Values(m - {k});
    if k != t {
      var rest := m - {k} - {t};
      assert m - {t} - {k} == rest;
      assert Values(m - {k}) == multiset{m[t]} + Values(rest) by { ValuesPeel(m - {k}, t); }
      assert Values(m - {t}) == multiset{m[k]} + Values(rest) by { ValuesPeel(m - {t}, k); }
      TwoAdded(m[k], m[t], Values(rest));
    }
  }

  lemma ValuesAdd<V>(m: map<nat, V>, t: nat, v: V)
    requires t !in m
    ensures Values(m[t := v]) == Values(m) + multiset{v}
  {
    ValuesPeel(m[t := v], t);
    assert m[t := v] - {t} == m;
  }
}

/** The three deciders that compare collections "ignoring order". */
module Bags {
  /** Go's map read: an absent key counts zero. */
  function At<K>(m: map<K, int>, k: K): int {
    if k in m then m[k] else 0
  }

  /** m counts the keys: exactly the occurring ones, each with its multiplicity. */
  ghost predicate IsCountOf<K(!new)>(m: map<K, int>, keys: seq<K>) {
    forall k :: (k in m <==> k in keys) && (k in m ==> m[k] == multiset(keys)[k])
  }

  method Multiset<K(==, !new)>(keys: seq<K>) returns (m: map<K, int>)
    ensures IsCountOf(m, keys)
  {
    m := map[];
    for i := 0 to |keys|
      invariant IsCountOf(m, keys[..i])
    {
      assert keys[..i + 1] == keys[..i] + [keys[i]];
      m := m[keys[i] := At(m, keys[i]) + 1];
    }
    assert keys[..|keys|] == keys;
  }

  method SameMultiset<K(==)>(a: map<K, int>, b: map<K, int>) returns (same: bool)
    ensures same <==> |a| == |b| && forall k :: k in a ==> At(b, k) == a[k]
  {
    if |a| != |b| {
      return false;
    }
    var todo := a.Keys;
    while todo != {}
      invariant todo <= a.Keys
      invariant forall k :: k in a && k !in todo ==> At(b, k) == a[k]
    {
      var k :| k in todo;
      if At(b, k) != a[k] {
        return false;
      }
      todo := todo - {k};
    }
    return true;
  }

  /** Equal sizes and a one-sided lookup decide equality of two counting maps. */
  lemma {:induction false} OneSidedLookupSuffices<K(!new)>(a: map<K, int>, b: map<K, int>, p: seq<K>, q: seq<K>)
    requires IsCountOf(a, p) && IsCountOf(b, q)
    ensures (|a| == |b| && forall k :: k in a ==> At(b, k) == a[k]) <==> multiset(p) == multiset(q)
  {
    assert forall k :: k in p <==> k in multiset(p);
    assert forall k :: k in q <==> k in multiset(q);
    assert |a| == |a.Keys| && |b| == |b.Keys|;
    if |a| == |b| && forall k :: k in a ==> At(b, k) == a[k] {
      forall k | k in a ensures k in b {
        assert At(b, k) == a[k] > 0;
      }
      SubsetOfEqualSize(a.Keys, b.Keys);
      assert forall k :: k in a <==> k in b;
      forall k ensures multiset(p)[k] == multiset(q)[k] {
        if k in a { assert At(b, k) == a[k]; }
      }
    }
    if multiset(p) == multiset(q) {
      assert a.Keys == b.Keys;
    }
  }

  lemma {:induction false} SubsetOfEqualSize<K>(x: set<K>, y: set<K>)
    requires x <= y && |x| == |y|
    ensures x == y
  {
    assert |y - x| == |y| - |x|;
    assert y == x + (y - x);
  }

  /** seen holds, per value, how often it was met in x less how often in y. */
  ghost predicate Balance(seen: map<int, int>, x: multiset<int>, y: multiset<int>) {
    forall v :: At(seen, v) + y[v] == x[v]
  }

  lemma {:induction false} BalanceUp(seen: map<int, int>, x: multiset<int>, y: multiset<int>, v: int)
    requires Balance(seen, x, y)
    ensures Balance(seen[v := At(seen, v) + 1], x + multiset{v}, y)
  {
  }

  lemma {:induction false} BalanceDown(seen: map<int, int>, x: multiset<int>, y: multiset<int>, v: int)
    requires Balance(seen, x, y)
    ensures Balance(seen[v := At(seen, v) - 1], x, y + multiset{v})
  {
  }

  /** Where the two loops stand: the counts for the first i values of one list and the
      first j of the other, none of them negative. */
  ghost predicate Counted(seen: map<int, int>, a: seq<int>, i: nat, b: seq<int>, j: nat)
    requires i <= |a| && j <= |b|
  {
    Balance(seen, multiset(a[..i]), multiset(b[..j])) && forall v :: At(seen, v) >= 0
  }

  lemma {:induction false} NothingCounted(a: seq<int>, b: seq<int>)
    ensures Counted(map[], a, 0, b, 0)
  {
  }

  lemma {:induction false} CountUp(seen: map<int, int>, a: seq<int>, i: nat, b: seq<int>)
    requires i < |a| && Counted(seen, a, i, b, 0)
    ensures Counted(seen[a[i] := At(seen, a[i]) + 1], a, i + 1, b, 0)
  {
    TakeOneMore(a, i);
    BalanceUp(seen, multiset(a[..i]), multiset(b[..0]), a[i]);
  }

  lemma {:induction false} CountDown(seen: map<int, int>, a: seq<int>, b: seq<int>, j: nat)
    requires j < |b| && Counted(seen, a, |a|, b, j)
    ensures At(seen, b[j]) >= 1 ==> Counted(seen[b[j] := At(seen, b[j]) - 1], a, |a|, b, j + 1)
    ensures At(seen, b[j]) < 1 ==> multiset(a) != multiset(b)
  {
    assert a[..|a|] == a;
    TakeOneMore(b, j);
    BalanceDown(seen, multiset(a), multiset(b[..j]), b[j]);
    PrefixCounts(b, j + 1);
  }

  lemma {:induction false} CountsEven(seen: map<int, int>, a: seq<int>, b: seq<int>)
    requires |a| == |b| && Counted(seen, a, |a|, b, |b|)
    ensures multiset(a) == multiset(b)
  {
    assert a[..|a|] == a && b[..|b|] == b;
    forall v ensures multiset(b)[v] <= multiset(a)[v] {
      assert At(seen, v) >= 0;
    }
    SubBagOfEqualSize(multiset(b), multiset(a));
  }

  /** Equal lengths and counts that never go negative decide equality as bags. */
  method SameIntSet(a: seq<int>, b: seq<int>) returns (same: bool)
    ensures same <==> multiset(a) == multiset(b)
  {
    hide Counted;
    if |a| != |b| {
      assert |multiset(a)| != |multiset(b)|;
      return false;
    }
    var seen: map<int, int> := map[];
    NothingCounted(a, b);
    for i := 0 to |a|
      invariant Counted(seen, a, i, b, 0)
    {
      CountUp(seen, a, i, b);
      seen := seen[a[i] := At(seen, a[i]) + 1];
    }
    for j := 0 to |b|
      invariant Counted(seen, a, |a|, b, j)
    {
      CountDown(seen, a, b, j);
      seen := seen[b[j] := At(seen, b[j]) - 1];
      if seen[b[j]] < 0 {
        return false;
      }
    }
    CountsEven(seen, a, b);
    return true;
  }

  lemma {:induction false} TakeOneMore<T>(s: seq<T>, i: nat)
    requires i < |s|
    ensures multiset(s[..i + 1]) == multiset(s[..i]) + multiset{s[i]}
  {
    assert s[..i + 1] == s[..i] + [s[i]];
  }

  lemma {:induction false} PrefixCounts<T>(s: seq<T>, i: nat)
    requires i <= |s|
    ensures multiset(s[..i]) <= multiset(s)
  {
    assert s == s[..i] + s[i..];
  }

  lemma {:induction false} SubBagOfEqualSize<T>(x: multiset<T>, y: multiset<T>)
    requires x <= y && |x| == |y|
    ensures x == y
  {
    assert y == x + (y - x);
    assert |y - x| == 0;
  }
}

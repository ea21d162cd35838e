/** Matching of desired entries with listed items by key, first come first
    served: the reference that planHints and syncFlags are proved against. */
module Matching {
  /** What the planner sees of a listed flag or hint. */
  datatype Item = Item(id: int, key: string)

  /** The ids listed under one key, in listing order. */
  function Queue(items: seq<Item>, k: string): (q: seq<int>)
  {
    if items == [] then []
    else
      var init, last := items[..|items| - 1], items[|items| - 1];
      if last.key == k then Queue(init, k) + [last.id] else Queue(init, k)
  }

  /** How many earlier entries share the key of entry i. */
  function Rank(keys: seq<string>, i: nat): nat
    requires i < |keys|
  {
    multiset(keys[..i])[keys[i]]
  }

  /** The id that desired entry i keeps: the j-th entry of a key keeps the j-th
      item listed under it, and -1 stands for an entry with nothing left to keep. */
  function Bind(keys: seq<string>, items: seq<Item>, i: nat): int
    requires i < |keys|
  {
    var q, r := Queue(items, keys[i]), Rank(keys, i);
    if r < |q| then q[r] else -1
  }

  function Plan(keys: seq<string>, items: seq<Item>): (ids: seq<int>)
    ensures |ids| == |keys|
  {
    seq(|keys|, i requires 0 <= i < |keys| => Bind(keys, items, i))
  }

  /** The position of an item among those of its own key. */
  function Place(items: seq<Item>, p: nat): nat
    requires p < |items|
  {
    |Queue(items[..p], items[p].key)|
  }

  /** The ids no entry keeps, in listing order. */
  function Surplus(keys: seq<string>, items: seq<Item>): seq<int> {
    if items == [] then []
    else
      var n := |items| - 1;
      var rest := Surplus(keys, items[..n]);
      if Place(items, n) >= multiset(keys)[items[n].key] then rest + [items[n].id] else rest
  }

  ghost predicate UniqueIds(items: seq<Item>) {
    && (forall p :: 0 <= p < |items| ==> items[p].id >= 0)
    && forall p, p' :: 0 <= p < p' < |items| ==> items[p].id != items[p'].id
  }

  ghost predicate Lists(items: seq<Item>, id: int) {
    exists p :: 0 <= p < |items| && items[p].id == id
  }

  // ---------- queues and places ----------

  lemma {:induction false} QueuePrefix(items: seq<Item>, p: nat, k: string)
    requires p <= |items|
    ensures Queue(items[..p], k) <= Queue(items, k)
  {
    if p == |items| {
      assert items[..p] == items;
    } else {
      var init := items[..|items| - 1];
      QueuePrefix(init, p, k);
      assert init[..p] == items[..p];
    }
  }

  lemma {:induction false} PlaceInQueue(items: seq<Item>, p: nat)
    requires p < |items|
    ensures Place(items, p) < |Queue(items, items[p].key)|
    ensures Queue(items, items[p].key)[Place(items, p)] == items[p].id
  {
    assert items[..p + 1][..p] == items[..p];
    QueuePrefix(items, p + 1, items[p].key);
  }

  lemma {:induction false} QueueSource(items: seq<Item>, k: string, r: nat) returns (p: nat)
    requires r < |Queue(items, k)|
    ensures p < |items| && items[p].key == k && Place(items, p) == r && items[p].id == Queue(items, k)[r]
  {
    var n := |items| - 1;
    var init := items[..n];
    if items[n].key == k && r == |Queue(init, k)| {
      p := n;
    } else {
      p := QueueSource(init, k, r);
      assert init[..p] == items[..p];
    }
  }

  lemma {:induction false} RankBelowCount(keys: seq<string>, i: nat)
    requires i < |keys|
    ensures Rank(keys, i) < multiset(keys)[keys[i]]
  {
    assert keys == keys[..i] + [keys[i]] + keys[i + 1..];
  }

  lemma {:induction false} RankStep(keys: seq<string>, i: nat, k: string)
    requires i < |keys|
    ensures multiset(keys[..i + 1])[k] == multiset(keys[..i])[k] + if keys[i] == k then 1 else 0
  {
    assert keys[..i + 1] == keys[..i] + [keys[i]];
  }

  lemma {:induction false} RanksGrow(keys: seq<string>, i: nat, j: nat)
    requires i < j < |keys| && keys[i] == keys[j]
    ensures Rank(keys, i) < Rank(keys, j)
  {
    RankBelowCount(keys[..j], i);
    assert keys[..j][..i] == keys[..i];
  }

  lemma {:induction false} FindRank(keys: seq<string>, k: string, r: nat) returns (i: nat)
    requires r < multiset(keys)[k]
    ensures i < |keys| && keys[i] == k && Rank(keys, i) == r
  {
    var n := |keys| - 1;
    assert keys == keys[..n] + [keys[n]];
    if keys[n] == k && r == multiset(keys[..n])[k] {
      i := n;
    } else {
      i := FindRank(keys[..n], k, r);
      assert keys[..n][..i] == keys[..i];
    }
  }

  // ---------- the plan is a matching ----------

  /** A bound entry keeps a listed item of equal key, the one in its own place. */
  lemma {:induction false} BoundItem(keys: seq<string>, items: seq<Item>, i: nat) returns (p: nat)
    requires i < |keys| && Rank(keys, i) < |Queue(items, keys[i])|
    ensures p < |items| && items[p] == Item(Bind(keys, items, i), keys[i]) && Place(items, p) == Rank(keys, i)
  {
    p := QueueSource(items, keys[i], Rank(keys, i));
  }

  lemma {:induction false} BoundNonNegative(keys: seq<string>, items: seq<Item>, i: nat)
    requires i < |keys| && UniqueIds(items)
    ensures Bind(keys, items, i) >= 0 <==> Rank(keys, i) < |Queue(items, keys[i])|
    ensures Bind(keys, items, i) >= 0 ==> Lists(items, Bind(keys, items, i))
  {
    if Rank(keys, i) < |Queue(items, keys[i])| {
      var p := BoundItem(keys, items, i);
    }
  }

  lemma {:induction false} BindingsDistinct(keys: seq<string>, items: seq<Item>, i: nat, j: nat)
    requires i < |keys| && j < |keys| && i != j && UniqueIds(items)
    requires Bind(keys, items, i) >= 0
    ensures Bind(keys, items, i) != Bind(keys, items, j)
  {
    if Bind(keys, items, j) >= 0 {
      var p := BoundItem(keys, items, i);
      var p' := BoundItem(keys, items, j);
      if keys[i] == keys[j] {
        if i < j { RanksGrow(keys, i, j); } else { RanksGrow(keys, j, i); }
      }
      assert p != p';
    }
  }

  lemma {:induction false} SurplusPlaces(keys: seq<string>, items: seq<Item>, id: int)
    ensures id in Surplus(keys, items)
       <==> exists p :: 0 <= p < |items| && items[p].id == id && Place(items, p) >= multiset(keys)[items[p].key]
  {
    if items != [] {
      var n := |items| - 1;
      var init := items[..n];
      SurplusPlaces(keys, init, id);
      forall p | 0 <= p < n ensures init[..p] == items[..p] {}
      assert forall p :: 0 <= p < n ==> Place(init, p) == Place(items, p);
    }
  }

  /** Nothing listed is lost and nothing is counted twice: an id is surplus exactly
      when it is listed and no entry keeps it. */
  lemma {:induction false} SurplusIsUnbound(keys: seq<string>, items: seq<Item>, id: int)
    requires UniqueIds(items)
    ensures id in Surplus(keys, items)
       <==> Lists(items, id) && forall i :: 0 <= i < |keys| ==> Bind(keys, items, i) != id
  {
    SurplusPlaces(keys, items, id);
    if Lists(items, id) {
      var p :| 0 <= p < |items| && items[p].id == id;
      var k := items[p].key;
      if Place(items, p) < multiset(keys)[k] {
        var i := FindRank(keys, k, Place(items, p));
        PlaceInQueue(items, p);
        assert Bind(keys, items, i) == id;
      } else {
        forall i | 0 <= i < |keys| ensures Bind(keys, items, i) != id {
          if Bind(keys, items, i) == id {
            var p' := BoundItem(keys, items, i);
            RankBelowCount(keys, i);
          }
        }
      }
    }
  }

  function Min(a: int, b: int): int {
    if a < b then a else b
  }

  /** How many of the first n entries carry key k and keep an item. */
  ghost function MatchedUpTo(keys: seq<string>, items: seq<Item>, k: string, n: nat): nat
    requires n <= |keys|
  {
    if n == 0 then 0
    else MatchedUpTo(keys, items, k, n - 1)
         + if keys[n - 1] == k && Bind(keys, items, n - 1) >= 0 then 1 else 0
  }

  /** The matching is as large as can be under every key. */
  lemma {:induction false} MatchingIsMaximum(keys: seq<string>, items: seq<Item>, k: string, n: nat)
    requires n <= |keys| && UniqueIds(items)
    ensures MatchedUpTo(keys, items, k, n) == Min(multiset(keys[..n])[k], |Queue(items, k)|)
  {
    if n > 0 {
      MatchingIsMaximum(keys, items, k, n - 1);
      RankStep(keys, n - 1, k);
      BoundNonNegative(keys, items, n - 1);
    }
  }

  // ---------- how the plan moves with the listing ----------

  lemma {:induction false} QueueAppend(items: seq<Item>, x: Item, k: string)
    ensures Queue(items + [x], k) == if x.key == k then Queue(items, k) + [x.id] else Queue(items, k)
  {
    assert (items + [x])[..|items|] == items;
  }

  /** A new item goes to the first entry of its key that had nothing to keep and
      leaves all other entries as they were. */
  lemma {:induction false} BindAppend(keys: seq<string>, items: seq<Item>, x: Item, i: nat)
    requires i < |keys|
    ensures Bind(keys, items + [x], i) ==
            if keys[i] == x.key && Rank(keys, i) == |Queue(items, x.key)| then x.id else Bind(keys, items, i)
  {
    QueueAppend(items, x, keys[i]);
  }

  function WithoutId(items: seq<Item>, id: int): seq<Item> {
    if items == [] then []
    else
      var init, last := items[..|items| - 1], items[|items| - 1];
      if last.id == id then WithoutId(init, id) else WithoutId(init, id) + [last]
  }

  function Without(ids: seq<int>, id: int): seq<int> {
    if ids == [] then []
    else
      var init, last := ids[..|ids| - 1], ids[|ids| - 1];
      if last == id then Without(init, id) else Without(init, id) + [last]
  }

  lemma {:induction false} QueueWithout(items: seq<Item>, id: int, k: string)
    ensures Queue(WithoutId(items, id), k) == Without(Queue(items, k), id)
  {
    if items != [] {
      var init, last := items[..|items| - 1], items[|items| - 1];
      QueueWithout(init, id, k);
      QueueAppend(WithoutId(init, id), last, k);
      var q := Queue(init, k);
      assert (q + [last.id])[..|q|] == q;
    }
  }

  lemma {:induction false} WithoutAbsent(ids: seq<int>, id: int)
    requires id !in ids
    ensures Without(ids, id) == ids
  {
    if ids != [] {
      WithoutAbsent(ids[..|ids| - 1], id);
    }
  }

  lemma {:induction false} WithoutKeepsFront(ids: seq<int>, id: int, c: nat)
    requires c <= |ids| && id !in ids[..c]
    ensures c <= |Without(ids, id)| && Without(ids, id)[..c] == ids[..c]
  {
    if ids != [] {
      var init := ids[..|ids| - 1];
      if c < |ids| {
        assert init[..c] == ids[..c];
        WithoutKeepsFront(init, id, c);
      } else {
        assert ids[..c] == ids;
        WithoutAbsent(ids, id);
      }
    }
  }

  /** Dropping an item that no entry keeps leaves every entry as it was. */
  lemma {:induction false} BindWithout(keys: seq<string>, items: seq<Item>, id: int, i: nat)
    requires i < |keys| && UniqueIds(items) && id in Surplus(keys, items)
    ensures Bind(keys, WithoutId(items, id), i) == Bind(keys, items, i)
  {
    var k := keys[i];
    var q, c := Queue(items, k), multiset(keys)[k];
    QueueWithout(items, id, k);
    RankBelowCount(keys, i);
    SurplusPlaces(keys, items, id);
    var s :| 0 <= s < |items| && items[s].id == id && Place(items, s) >= multiset(keys)[items[s].key];
    PlaceInQueue(items, s);
    var front := if |q| < c then |q| else c;
    forall r | 0 <= r < front ensures q[r] != id {
      var p := QueueSource(items, k, r);
      assert p != s;
    }
    WithoutKeepsFront(q, id, front);
    if |q| < c {
      WithoutAbsent(q, id);
    } else {
      assert Without(q, id)[Rank(keys, i)] == Without(q, id)[..c][Rank(keys, i)];
    }
  }

  lemma {:induction false} WithoutIdUnlisted(items: seq<Item>, id: int)
    requires !Lists(items, id)
    ensures WithoutId(items, id) == items
  {
    if items != [] {
      var n := |items| - 1;
      assert items[n].id != id;
      forall p | 0 <= p < n ensures items[..n][p].id != id { assert items[p].id != id; }
      WithoutIdUnlisted(items[..n], id);
    }
  }

  /** Dropping one item shortens its own queue by one and no other. */
  lemma {:induction false} QueueShrinks(items: seq<Item>, p: nat, k: string)
    requires UniqueIds(items) && p < |items|
    ensures |Queue(WithoutId(items, items[p].id), k)| == |Queue(items, k)| - if items[p].key == k then 1 else 0
  {
    var n := |items| - 1;
    var init := items[..n];
    if p == n {
      WithoutIdUnlisted(init, items[n].id);
    } else {
      assert init[p] == items[p];
      QueueShrinks(init, p, k);
      QueueAppend(WithoutId(init, items[p].id), items[n], k);
    }
  }

  lemma {:induction false} WithoutIdLists(items: seq<Item>, id: int, x: int)
    ensures Lists(WithoutId(items, id), x) <==> Lists(items, x) && x != id
  {
    if items != [] {
      var n := |items| - 1;
      var init := items[..n];
      WithoutIdLists(init, id, x);
      assert Lists(items, x) <==> Lists(init, x) || items[n].id == x by {
        if Lists(items, x) && items[n].id != x {
          var p :| 0 <= p < |items| && items[p].id == x;
          assert init[p].id == x;
        }
        if Lists(init, x) {
          var p :| 0 <= p < |init| && init[p].id == x;
          assert items[p].id == x;
        }
        assert items[n].id == x ==> Lists(items, x);
      }
      var rest := WithoutId(init, id);
      if items[n].id != id {
        ListsAppend(rest, items[n], x);
      }
    }
  }

  lemma {:induction false} ListsAppend(items: seq<Item>, y: Item, x: int)
    ensures Lists(items + [y], x) <==> Lists(items, x) || y.id == x
  {
    var longer := items + [y];
    assert longer[|items|] == y;
    if Lists(items, x) {
      var p :| 0 <= p < |items| && items[p].id == x;
      assert longer[p].id == x;
    }
    if Lists(longer, x) && y.id != x {
      var p :| 0 <= p < |longer| && longer[p].id == x;
      assert items[p].id == x;
    }
  }

  lemma {:induction false} UniqueWithout(items: seq<Item>, id: int)
    requires UniqueIds(items)
    ensures UniqueIds(WithoutId(items, id))
  {
    if items != [] {
      var n := |items| - 1;
      var init := items[..n];
      UniqueWithout(init, id);
      if items[n].id != id {
        var rest, y := WithoutId(init, id), items[n].id;
        WithoutIdLists(init, id, y);
        assert !Lists(init, y) && !Lists(rest, y);
        assert forall p :: 0 <= p < |rest| ==> rest[p].id != y;
      }
    }
  }

  /** An id is surplus at most once. */
  lemma {:induction false} SurplusOnce(keys: seq<string>, items: seq<Item>, id: int)
    requires UniqueIds(items)
    ensures multiset(Surplus(keys, items))[id] <= 1
  {
    if items != [] {
      var n := |items| - 1;
      SurplusOnce(keys, items[..n], id);
      SurplusPlaces(keys, items[..n], id);
      assert items[n].id == id ==> id !in Surplus(keys, items[..n]);
    }
  }

  lemma {:induction false} SurplusWithout(keys: seq<string>, items: seq<Item>, id: int, x: int)
    requires UniqueIds(items) && id in Surplus(keys, items)
    ensures x in Surplus(keys, WithoutId(items, id)) <==> x in Surplus(keys, items) && x != id
  {
    var rest := WithoutId(items, id);
    UniqueWithout(items, id);
    SurplusIsUnbound(keys, items, x);
    SurplusIsUnbound(keys, rest, x);
    WithoutIdLists(items, id, x);
    forall i | 0 <= i < |keys| ensures Bind(keys, rest, i) == Bind(keys, items, i) {
      BindWithout(keys, items, id, i);
    }
  }

  /** Dropping a surplus item takes one from the queue of a key that has too many. */
  lemma {:induction false} SurplusShrinks(keys: seq<string>, items: seq<Item>, id: int, k: string) returns (key: string)
    requires UniqueIds(items) && id in Surplus(keys, items)
    ensures |Queue(items, key)| > multiset(keys)[key]
    ensures |Queue(WithoutId(items, id), k)| == |Queue(items, k)| - if k == key then 1 else 0
    ensures exists p :: 0 <= p < |items| && items[p] == Item(id, key)
  {
    SurplusPlaces(keys, items, id);
    var p :| 0 <= p < |items| && items[p].id == id && Place(items, p) >= multiset(keys)[items[p].key];
    PlaceInQueue(items, p);
    QueueShrinks(items, p, k);
    key := items[p].key;
    assert items[p] == Item(id, key);
  }

  /** The first entry with nothing to keep comes right after the items of its key. */
  lemma {:induction false} FirstMissing(keys: seq<string>, items: seq<Item>, i: nat)
    requires i < |keys| && UniqueIds(items) && Bind(keys, items, i) < 0
    requires forall j :: 0 <= j < i ==> Bind(keys, items, j) >= 0
    ensures Rank(keys, i) == |Queue(items, keys[i])|
  {
    BoundNonNegative(keys, items, i);
    var q := |Queue(items, keys[i])|;
    if Rank(keys, i) > q {
      var j := FindRank(keys[..i], keys[i], q);
      MissingAtRank(keys, items, i, j);
    }
  }

  lemma {:induction false} MissingAtRank(keys: seq<string>, items: seq<Item>, i: nat, j: nat)
    requires j < i <= |keys| && Rank(keys[..i], j) == |Queue(items, keys[j])|
    ensures Bind(keys, items, j) == -1
  {
    assert keys[..i][..j] == keys[..j];
  }

  lemma {:induction false} PostBinds(keys: seq<string>, items: seq<Item>, i: nat, id: int, j: nat)
    requires i < |keys| && j < |keys| && Rank(keys, i) == |Queue(items, keys[i])|
    ensures Bind(keys, items + [Item(id, keys[i])], j) == if j == i then id else Bind(keys, items, j)
  {
    BindAppend(keys, items, Item(id, keys[i]), j);
    if keys[j] == keys[i] {
      if j < i { RanksGrow(keys, j, i); }
      if i < j { RanksGrow(keys, i, j); }
    }
  }

  /** Every entry keeps an item and no item is left over exactly when keys and items
      are the same collection. */
  lemma {:induction false} PerfectMatching(keys: seq<string>, items: seq<Item>)
    requires UniqueIds(items)
    ensures (forall i :: 0 <= i < |keys| ==> Bind(keys, items, i) >= 0) && Surplus(keys, items) == []
       <==> forall k :: |Queue(items, k)| == multiset(keys)[k]
  {
    if (forall i :: 0 <= i < |keys| ==> Bind(keys, items, i) >= 0) && Surplus(keys, items) == [] {
      forall k ensures |Queue(items, k)| == multiset(keys)[k] {
        if |Queue(items, k)| < multiset(keys)[k] {
          var i := FindRank(keys, k, |Queue(items, k)|);
          BoundNonNegative(keys, items, i);
        }
        if |Queue(items, k)| > multiset(keys)[k] {
          var p := QueueSource(items, k, multiset(keys)[k]);
          SurplusPlaces(keys, items, items[p].id);
        }
      }
    }
    if forall k :: |Queue(items, k)| == multiset(keys)[k] {
      forall i | 0 <= i < |keys| ensures Bind(keys, items, i) >= 0 {
        RankBelowCount(keys, i);
        BoundNonNegative(keys, items, i);
      }
      if Surplus(keys, items) != [] {
        var id := Surplus(keys, items)[0];
        var key := SurplusShrinks(keys, items, id, "");
      }
    }
  }

  lemma {:induction false} SomeElement(s: seq<int>) returns (x: int)
    requires s != []
    ensures x in s
  {
    x := s[0];
  }

  /** A count moves towards its target and never past it. */
  predicate Towards(from: int, to: int, target: int) {
    (from <= target ==> from <= to <= target) && (from >= target ==> target <= to <= from)
  }
}

/** The planning and comparing code as it runs: pools of ids per key that are taken
    from the front, lookup tables filled in loops. */
module Planner {
  import opened Wrappers
  import opened Ctfd
  import opened Keys
  import opened Matching
  import opened FlagSync
  import opened HintSync
  import Bags
  import PrereqGraph

  type Pool = map<string, seq<int>>

  function Left(pool: Pool, k: string): seq<int> {
    if k in pool then pool[k] else []
  }

  /** What the first i entries leave of the queue of a key. */
  function Rest(keys: seq<string>, items: seq<Item>, k: string): seq<int> {
    var q, n := Queue(items, k), multiset(keys)[k];
    if n <= |q| then q[n..] else []
  }

  ghost predicate PoolAfter(pool: Pool, keys: seq<string>, items: seq<Item>) {
    forall k :: Left(pool, k) == Rest(keys, items, k)
  }

  method FillPool(items: seq<Item>) returns (pool: Pool)
    ensures PoolAfter(pool, [], items)
  {
    pool := map[];
    for i := 0 to |items|
      invariant forall k :: Left(pool, k) == Queue(items[..i], k)
    {
      var k := items[i].key;
      assert items[..i + 1] == items[..i] + [items[i]];
      forall x
        ensures Queue(items[..i + 1], x)
             == if x == k then Queue(items[..i], x) + [items[i].id] else Queue(items[..i], x)
      {
        QueueAppend(items[..i], items[i], x);
      }
      pool := pool[k := Left(pool, k) + [items[i].id]];
    }
    assert items[..|items|] == items;
  }

  lemma {:induction false} RestStep(keys: seq<string>, items: seq<Item>, i: nat, k: string)
    requires i < |keys|
    ensures var before := Rest(keys[..i], items, k);
            Rest(keys[..i + 1], items, k) == if keys[i] == k && before != [] then before[1..] else before
    ensures keys[i] == k ==>
              Bind(keys, items, i) == if Rest(keys[..i], items, k) != [] then Rest(keys[..i], items, k)[0] else -1
  {
    RankStep(keys, i, k);
  }

  /** Entry i takes the first id left under its key, if any. */
  method Take(pool: Pool, ghost keys: seq<string>, ghost items: seq<Item>, ghost i: nat, k: string)
    returns (id: Option<int>, pool': Pool)
    requires i < |keys| && k == keys[i] && PoolAfter(pool, keys[..i], items)
    ensures PoolAfter(pool', keys[..i + 1], items)
    ensures Bind(keys, items, i) == if id.Some? then id.value else -1
    ensures id.Some? ==> Rank(keys, i) < |Queue(items, k)|
  {
    hide Rest, Bind;
    var ids := Left(pool, k);
    assert ids == Rest(keys[..i], items, k);
    RestStep(keys, items, i, k);
    RestMeansBound(keys, items, i);
    if |ids| > 0 {
      id, pool' := Some(ids[0]), pool[k := ids[1..]];
    } else {
      id, pool' := None, pool;
    }
    forall x ensures Left(pool', x) == Rest(keys[..i + 1], items, x) {
      assert Left(pool, x) == Rest(keys[..i], items, x);
      RestStep(keys, items, i, x);
    }
  }

  lemma {:induction false} RestMeansBound(keys: seq<string>, items: seq<Item>, i: nat)
    requires i < |keys|
    ensures Rest(keys[..i], items, keys[i]) != [] <==> Rank(keys, i) < |Queue(items, keys[i])|
  {
  }

  // ---------- draining the pool in any order ----------

  /** The surplus ids whose key is among ks. */
  ghost function SurplusUnder(keys: seq<string>, items: seq<Item>, ks: set<string>): seq<int> {
    if items == [] then []
    else
      var n := |items| - 1;
      var rest := SurplusUnder(keys, items[..n], ks);
      if items[n].key in ks && Place(items, n) >= multiset(keys)[items[n].key] then rest + [items[n].id] else rest
  }

  lemma {:induction false} RestLast(keys: seq<string>, items: seq<Item>, k: string)
    requires items != []
    ensures var n := |items| - 1;
            Rest(keys, items, k) == Rest(keys, items[..n], k) +
              if items[n].key == k && Place(items, n) >= multiset(keys)[k] then [items[n].id] else []
  {
    var n := |items| - 1;
    var q, c := Queue(items[..n], k), multiset(keys)[k];
    if items[n].key == k && c <= |q| {
      assert (q + [items[n].id])[c..] == q[c..] + [items[n].id];
    }
  }

  lemma {:induction false} SurplusByKey(keys: seq<string>, items: seq<Item>, ks: set<string>, k: string)
    requires k !in ks
    ensures multiset(SurplusUnder(keys, items, ks + {k}))
         == multiset(SurplusUnder(keys, items, ks)) + multiset(Rest(keys, items, k))
  {
    if items != [] {
      hide Rest, Place, Queue;
      SurplusByKey(keys, items[..|items| - 1], ks, k);
      RestLast(keys, items, k);
    }
  }

  lemma {:induction false} SurplusOverAll(keys: seq<string>, items: seq<Item>, ks: set<string>)
    requires forall p :: 0 <= p < |items| ==> items[p].key in ks || Rest(keys, items, items[p].key) == []
    ensures SurplusUnder(keys, items, ks) == Surplus(keys, items)
  {
    if items != [] {
      var n := |items| - 1;
      forall p | 0 <= p < n ensures items[..n][p].key in ks || Rest(keys, items[..n], items[..n][p].key) == [] {
        QueuePrefix(items, n, items[p].key);
      }
      SurplusOverAll(keys, items[..n], ks);
      PlaceInQueue(items, n);
    }
  }

  lemma {:induction false} SurplusUnderNone(keys: seq<string>, items: seq<Item>)
    ensures SurplusUnder(keys, items, {}) == []
  {
    if items != [] {
      SurplusUnderNone(keys, items[..|items| - 1]);
    }
  }

  /** Whatever order the keys come in, the ids left are those nobody keeps. */
  method Drain(pool: Pool, ghost keys: seq<string>, ghost items: seq<Item>) returns (deletes: seq<int>)
    requires PoolAfter(pool, keys, items)
    ensures multiset(deletes) == multiset(Surplus(keys, items))
  {
    deletes := [];
    var todo := pool.Keys;
    ghost var done: set<string> := {};
    SurplusUnderNone(keys, items);
    while todo != {}
      invariant todo <= pool.Keys && done == pool.Keys - todo
      invariant multiset(deletes) == multiset(SurplusUnder(keys, items, done))
    {
      var k :| k in todo;
      SurplusByKey(keys, items, done, k);
      assert pool[k] == Left(pool, k) == Rest(keys, items, k);
      deletes := deletes + pool[k];
      todo := todo - {k};
      done := done + {k};
    }
    forall p | 0 <= p < |items| ensures items[p].key in done || Rest(keys, items, items[p].key) == [] {
      assert Left(pool, items[p].key) == Rest(keys, items, items[p].key);
    }
    SurplusOverAll(keys, items, done);
  }

  /** The plan is the first-come-first-served matching, and the deletes are the
      unwanted hints in some order. */
  method PlanHints(desired: seq<HintSpec>, existing: seq<Hint>) returns (idByIndex: array<int>, deletes: seq<int>)
    ensures fresh(idByIndex) && idByIndex[..] == Ids(desired, existing)
    ensures IsDeleteOrder(desired, existing, deletes)
  {
    hide Bind, Surplus, PoolAfter, KeyOf, WantedKey;
    ghost var keys, items := Wanted(desired), Items(existing);
    var pool := FillPool(Items(existing));
    idByIndex := new int[|desired|];
    assert keys[..0] == [];
    for i := 0 to |desired|
      invariant PoolAfter(pool, keys[..i], items)
      invariant forall j :: 0 <= j < i ==> idByIndex[j] == Bind(keys, items, j)
    {
      var id;
      id, pool := Take(pool, keys, items, i, WantedKey(desired[i]));
      idByIndex[i] := if id.Some? then id.value else -1;
    }
    assert keys[..|desired|] == keys;
    deletes := Drain(pool, keys, items);
  }

  method MapPrereqsOf(idx: seq<int>, idByIndex: array<int>) returns (out: seq<int>)
    requires forall p :: p in idx ==> 0 <= p < idByIndex.Length
    ensures out == MapPrereqs(idx, idByIndex[..])
  {
    out := [];
    for k := 0 to |idx|
      invariant |out| == k
      invariant forall j :: 0 <= j < k ==> out[j] == MapPrereqs(idx, idByIndex[..])[j]
    {
      assert idx[k] in idx;
      out := out + [idByIndex[idx[k]]];
    }
  }

  /** Hints by id; were ids to repeat, the last one listed wins. */
  method IndexById(existing: seq<Hint>) returns (byId: map<int, Hint>)
    ensures forall id :: Lookup(existing, id) == if id in byId then Some(byId[id]) else None
  {
    byId := map[];
    for i := 0 to |existing|
      invariant forall id :: Lookup(existing[..i], id) == if id in byId then Some(byId[id]) else None
    {
      assert existing[..i + 1][..i] == existing[..i];
      byId := byId[existing[i].id := existing[i]];
    }
    assert existing[..|existing|] == existing;
  }

  method IsSettled(d: HintSpec, want: seq<int>, cur: Option<Hint>) returns (settled: bool)
    ensures settled == Settled(d, want, ReqOf(cur))
  {
    var same := Bags.SameIntSet(want, PrereqsOf(ReqOf(cur)));
    settled := same && (|d.prerequisites| == 0 || EqAnonymize(d.anonymize, ReqOf(cur)));
  }

  /** Observe's verdict on hints. */
  method AreHintsUpToDate(desired: seq<HintSpec>, existing: seq<Hint>) returns (upToDate: bool)
    ensures upToDate <==> HintsUpToDate(desired, existing)
  {
    hide Bind, Surplus, Settled, MapPrereqs, Lookup;
    var err := PrereqGraph.ValidateHintPrereqs(Prereqs(desired));
    if err.Some? {
      return false;
    }
    ValidMeansResolvable(desired);
    var idByIndex, deletes := PlanHints(desired, existing);
    assert |deletes| == |multiset(deletes)| == |multiset(Unwanted(desired, existing))| == |Unwanted(desired, existing)|;
    if |deletes| > 0 {
      return false;
    }
    var byId := IndexById(existing);
    for i := 0 to |desired|
      invariant idByIndex[..] == Ids(desired, existing)
      invariant forall j :: 0 <= j < i ==> PlacedAt(desired, existing, j)
    {
      var id := idByIndex[i];
      assert id == Ids(desired, existing)[i] == IdOf(desired, existing, i);
      if id < 0 {
        assert !PlacedAt(desired, existing, i);
        return false;
      }
      forall p | p in desired[i].prerequisites ensures 0 <= p < idByIndex.Length {}
      var want := MapPrereqsOf(desired[i].prerequisites, idByIndex);
      var settled := IsSettled(desired[i], want, if id in byId then Some(byId[id]) else None);
      if !settled {
        assert !PlacedAt(desired, existing, i);
        return false;
      }
    }
    return true;
  }

  method FlagKeysWanted(desired: seq<FlagSpec>) returns (want: seq<string>)
    ensures want == WantedFlags(desired)
  {
    want := [];
    for i := 0 to |desired|
      invariant |want| == i && forall j :: 0 <= j < i ==> want[j] == WantedFlags(desired)[j]
    {
      want := want + [FlagKey(desired[i].content, desired[i].typ, desired[i].data)];
    }
  }

  method FlagKeysPresent(existing: seq<Flag>) returns (got: seq<string>)
    ensures got == KeysOf(FlagItems(existing))
  {
    got := [];
    for i := 0 to |existing|
      invariant |got| == i && forall j :: 0 <= j < i ==> got[j] == KeysOf(FlagItems(existing))[j]
    {
      got := got + [FlagKey(existing[i].content, existing[i].typ, existing[i].data)];
    }
  }

  /** Observe's verdict on flags. */
  method AreFlagsUpToDate(desired: seq<FlagSpec>, existing: seq<Flag>) returns (upToDate: bool)
    ensures upToDate <==> FlagsUpToDate(desired, existing)
  {
    var want := FlagKeysWanted(desired);
    var got := FlagKeysPresent(existing);
    var wanted := Bags.Multiset(want);
    var present := Bags.Multiset(got);
    upToDate := Bags.SameMultiset(wanted, present);
    Bags.OneSidedLookupSuffices(wanted, present, want, got);
  }
}

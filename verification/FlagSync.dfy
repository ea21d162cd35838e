/** Flag reconciliation as a function of the server's flags and its answers: it
    reaches the wanted collection, and with as few writes as that can take. */
module FlagSync {
  import opened Ctfd
  import opened Keys
  import opened Matching

  function FlagItems(flags: seq<Flag>): (items: seq<Item>)
    ensures |items| == |flags|
  {
    seq(|flags|, i requires 0 <= i < |flags| =>
      Item(flags[i].id, FlagKey(flags[i].content, flags[i].typ, flags[i].data)))
  }

  function WantedFlags(desired: seq<FlagSpec>): (keys: seq<string>)
    ensures |keys| == |desired|
  {
    seq(|desired|, i requires 0 <= i < |desired| => FlagKey(desired[i].content, desired[i].typ, desired[i].data))
  }

  /** The keys of listed items, in listing order. */
  function KeysOf(items: seq<Item>): (keys: seq<string>)
    ensures |keys| == |items|
  {
    seq(|items|, i requires 0 <= i < |items| => items[i].key)
  }

  function Want(desired: seq<FlagSpec>): multiset<string> {
    multiset(WantedFlags(desired))
  }

  function Have(flags: seq<Flag>): multiset<string> {
    multiset(KeysOf(FlagItems(flags)))
  }

  /** What Observe compares: the two collections, ignoring order. */
  ghost predicate FlagsUpToDate(desired: seq<FlagSpec>, flags: seq<Flag>) {
    Want(desired) == Have(flags)
  }

  // ---------- the server calls and the loop ----------

  datatype FlagState = FlagState(flags: seq<Flag>, line: Line)

  function NewFlag(d: FlagSpec, id: int): Flag {
    Flag(id, d.content, FlagTypeOrDefault(d.typ), d.data)
  }

  function PostFlagCall(s: FlagState, taken: set<int>, d: FlagSpec): (FlagState, bool) {
    var r := s.line.Next();
    var id := FreshId(taken + (set f | f in s.flags :: f.id), r.id);
    (FlagState(if r.fault == Refused then s.flags else s.flags + [NewFlag(d, id)], s.line.Sent(PostFlag)),
     r.fault == Served)
  }

  function DropFlag(flags: seq<Flag>, id: int): seq<Flag> {
    if flags == [] then []
    else
      var init, last := flags[..|flags| - 1], flags[|flags| - 1];
      if last.id == id then DropFlag(init, id) else DropFlag(init, id) + [last]
  }

  function DeleteFlagCall(s: FlagState, id: int): (FlagState, bool) {
    var r := s.line.Next();
    (FlagState(if r.fault == Refused then s.flags else DropFlag(s.flags, id), s.line.Sent(DeleteFlag(id))),
     r.fault == Served)
  }

  /** Entries with no listed flag left to keep are posted, in order. */
  function PostMissing(desired: seq<FlagSpec>, existing: seq<Flag>, i: nat, taken: set<int>,
      s: FlagState): (FlagState, bool)
    requires i <= |desired|
    decreases |desired| - i
  {
    if i == |desired| then (s, true)
    else if Bind(WantedFlags(desired), FlagItems(existing), i) >= 0 then PostMissing(desired, existing, i + 1, taken, s)
    else
      var (s', ok) := PostFlagCall(s, taken, desired[i]);
      if !ok then (s', false) else PostMissing(desired, existing, i + 1, taken, s')
  }

  function DeleteFlags(deletes: seq<int>, s: FlagState): (FlagState, bool) {
    if deletes == [] then (s, true)
    else
      var (s', ok) := DeleteFlagCall(s, deletes[0]);
      if !ok then (s', false) else DeleteFlags(deletes[1..], s')
  }

  function SurplusFlags(desired: seq<FlagSpec>, flags: seq<Flag>): seq<int> {
    Surplus(WantedFlags(desired), FlagItems(flags))
  }

  ghost predicate IsFlagOrder(desired: seq<FlagSpec>, flags: seq<Flag>, deletes: seq<int>) {
    multiset(deletes) == multiset(SurplusFlags(desired, flags))
  }

  function SyncFlags(desired: seq<FlagSpec>, taken: set<int>, s: FlagState, deletes: seq<int>): (FlagState, bool) {
    var (line, listed) := s.line.ReadMany(1);
    var s1 := s.(line := line);
    if !listed then (s1, false)
    else
      var (s2, posted) := PostMissing(desired, s.flags, 0, taken, s1);
      if !posted then (s2, false) else DeleteFlags(deletes, s2)
  }

  // ---------- distance ----------

  /** The number of entries by which two collections differ. */
  function Distance(want: multiset<string>, have: multiset<string>): nat {
    |want - have| + |have - want|
  }

  lemma {:induction false} AddingMissing(want: multiset<string>, have: multiset<string>, k: string)
    requires have[k] < want[k]
    ensures Distance(want, have + multiset{k}) == Distance(want, have) - 1
  {
    assert want - have == (want - (have + multiset{k})) + multiset{k};
    assert (have + multiset{k}) - want == have - want;
  }

  lemma {:induction false} RemovingSurplus(want: multiset<string>, have: multiset<string>, k: string)
    requires have[k] > want[k]
    ensures Distance(want, have - multiset{k}) == Distance(want, have) - 1
  {
    assert have - want == ((have - multiset{k}) - want) + multiset{k};
    assert want - (have - multiset{k}) == want - have;
  }

  lemma {:induction false} DistanceZero(want: multiset<string>, have: multiset<string>)
    ensures Distance(want, have) == 0 <==> want == have
  {
    if Distance(want, have) == 0 {
      assert want - have == multiset{} && have - want == multiset{};
      forall k ensures want[k] == have[k] {
        assert (want - have)[k] == 0 && (have - want)[k] == 0;
      }
    }
  }

  /** One write adds or removes one entry. */
  ghost predicate OneWrite(a: multiset<string>, b: multiset<string>) {
    exists k :: b == a + multiset{k} || a == b + multiset{k}
  }

  lemma {:induction false} AddingGainsAtMostOne(want: multiset<string>, a: multiset<string>, k: string)
    ensures -1 <= Distance(want, a + multiset{k}) - Distance(want, a) <= 1
  {
    if a[k] < want[k] {
      AddingMissing(want, a, k);
    } else {
      var b := a + multiset{k};
      RemovingSurplus(want, b, k);
      assert b - multiset{k} == a;
    }
  }

  lemma {:induction false} OneWriteMovesByOne(want: multiset<string>, a: multiset<string>, b: multiset<string>)
    requires OneWrite(a, b)
    ensures Distance(want, b) >= Distance(want, a) - 1
  {
    hide Distance;
    var k :| b == a + multiset{k} || a == b + multiset{k};
    AddingGainsAtMostOne(want, a, k);
    AddingGainsAtMostOne(want, b, k);
  }

  /** However the collection is edited, reaching the wanted one takes at least as
      many writes as the distance. */
  lemma {:induction false} NoShorterWay(want: multiset<string>, steps: seq<multiset<string>>)
    requires steps != [] && steps[|steps| - 1] == want
    requires forall t :: 0 <= t < |steps| - 1 ==> OneWrite(steps[t], steps[t + 1])
    ensures |steps| - 1 >= Distance(want, steps[0])
  {
    if |steps| == 1 {
      DistanceZero(want, want);
    } else {
      assert OneWrite(steps[0], steps[0 + 1]);
      OneWriteMovesByOne(want, steps[0], steps[1]);
      forall t | 0 <= t < |steps[1..]| - 1 ensures OneWrite(steps[1..][t], steps[1..][t + 1]) {
        assert OneWrite(steps[t + 1], steps[t + 1 + 1]);
      }
      NoShorterWay(want, steps[1..]);
    }
  }

  // ---------- items and counts ----------

  lemma {:induction false} KeyCount(items: seq<Item>, k: string)
    ensures multiset(KeysOf(items))[k] == |Queue(items, k)|
  {
    if items != [] {
      var n := |items| - 1;
      KeyCount(items[..n], k);
      assert KeysOf(items) == KeysOf(items[..n]) + [items[n].key];
    }
  }

  lemma {:induction false} HaveCounts(flags: seq<Flag>, k: string)
    ensures Have(flags)[k] == |Queue(FlagItems(flags), k)|
  {
    KeyCount(FlagItems(flags), k);
  }

  lemma {:induction false} FlagItemsDrop(flags: seq<Flag>, id: int)
    ensures FlagItems(DropFlag(flags, id)) == WithoutId(FlagItems(flags), id)
  {
    if flags != [] {
      var init, last := flags[..|flags| - 1], flags[|flags| - 1];
      FlagItemsDrop(init, id);
      assert FlagItems(flags)[..|flags| - 1] == FlagItems(init);
      if last.id != id {
        assert FlagItems(DropFlag(init, id) + [last])
            == FlagItems(DropFlag(init, id)) + [FlagItems(flags)[|flags| - 1]];
      }
    }
  }

  // ---------- progress of every write ----------

  /** The writes of a log that took effect. */
  function Applied(log: seq<Entry>): nat {
    if log == [] then 0
    else Applied(log[..|log| - 1]) + if log[|log| - 1].applied then 1 else 0
  }

  /** Between two moments: ids stay unique, each value's count moves towards the
      wanted one, and the distance drops by exactly the writes that took effect,
      which without failures are all that were sent. */
  ghost predicate FlagProgress(desired: seq<FlagSpec>, a: FlagState, b: FlagState) {
    && UniqueIds(FlagItems(b.flags))
    && (forall k :: Towards(Have(a.flags)[k], Have(b.flags)[k], Want(desired)[k]))
    && Applied(b.line.log) + Distance(Want(desired), Have(b.flags))
       == Applied(a.line.log) + Distance(Want(desired), Have(a.flags))
    && |b.line.log| >= |a.line.log|
    && (a.line.Quiet() ==>
          b.line.Quiet() && |b.line.log| - |a.line.log| == Applied(b.line.log) - Applied(a.line.log))
  }

  lemma {:induction false} FlagProgressTransitive(desired: seq<FlagSpec>, a: FlagState, b: FlagState, c: FlagState)
    ensures FlagProgress(desired, a, b) && FlagProgress(desired, b, c) ==> FlagProgress(desired, a, c)
  {
    if FlagProgress(desired, a, b) && FlagProgress(desired, b, c) {
      forall k ensures Towards(Have(a.flags)[k], Have(c.flags)[k], Want(desired)[k]) {
        assert Towards(Have(a.flags)[k], Have(b.flags)[k], Want(desired)[k]);
        assert Towards(Have(b.flags)[k], Have(c.flags)[k], Want(desired)[k]);
      }
    }
  }

  lemma {:induction false} SentApplies(line: Line, w: Write)
    ensures Applied(line.Sent(w).log) == Applied(line.log) + if line.Next().fault != Refused then 1 else 0
    ensures |line.Sent(w).log| == |line.log| + 1
    ensures line.Quiet() ==> line.Next().fault == Served && line.Sent(w).Quiet()
  {
    assert line.Sent(w).log[..|line.log|] == line.log;
  }

  /** Where the posting loop stands: the first i entries keep a flag, the others
      keep what they kept at the start, and what is surplus has not changed. */
  ghost predicate Posting(desired: seq<FlagSpec>, existing: seq<Flag>, i: nat, flags: seq<Flag>) {
    && UniqueIds(FlagItems(flags))
    && SurplusFlags(desired, flags) == SurplusFlags(desired, existing)
    && forall j :: 0 <= j < |desired| ==>
         if j < i then Bind(WantedFlags(desired), FlagItems(flags), j) >= 0
         else Bind(WantedFlags(desired), FlagItems(flags), j) == Bind(WantedFlags(desired), FlagItems(existing), j)
  }

  lemma {:induction false} FlagItemsAppend(flags: seq<Flag>, d: FlagSpec, id: int)
    ensures FlagItems(flags + [NewFlag(d, id)]) == FlagItems(flags) + [Item(id, FlagKey(d.content, d.typ, d.data))]
    ensures Have(flags + [NewFlag(d, id)]) == Have(flags) + multiset{FlagKey(d.content, d.typ, d.data)}
  {
    var x := Item(id, FlagKey(d.content, d.typ, d.data));
    assert FlagItems(flags + [NewFlag(d, id)]) == FlagItems(flags) + [x];
    assert KeysOf(FlagItems(flags) + [x]) == KeysOf(FlagItems(flags)) + [x.key];
  }

  lemma {:induction false} AppendSurplus(keys: seq<string>, items: seq<Item>, x: Item)
    requires |Queue(items, x.key)| < multiset(keys)[x.key]
    ensures Surplus(keys, items + [x]) == Surplus(keys, items)
  {
    assert (items + [x])[..|items|] == items;
  }

  lemma {:induction false} AppendUnique(items: seq<Item>, x: Item)
    requires UniqueIds(items) && x.id >= 0 && forall p :: 0 <= p < |items| ==> items[p].id != x.id
    ensures UniqueIds(items + [x])
  {
  }

  /** An entry with nothing to keep, all before it keeping something: there are fewer
      flags of its key than wanted, and the next one is for it. */
  lemma {:induction false} PostIsMissing(desired: seq<FlagSpec>, existing: seq<Flag>, i: nat, flags: seq<Flag>)
    requires i < |desired| && Posting(desired, existing, i, flags)
    requires Bind(WantedFlags(desired), FlagItems(existing), i) < 0
    ensures var keys, items := WantedFlags(desired), FlagItems(flags);
            Rank(keys, i) == |Queue(items, keys[i])| == Have(flags)[keys[i]] < Want(desired)[keys[i]]
  {
    hide Bind, Queue, Rank, Surplus, FlagItems, UniqueIds;
    var keys := WantedFlags(desired);
    FirstMissing(keys, FlagItems(flags), i);
    RankBelowCount(keys, i);
    HaveCounts(flags, keys[i]);
  }

  lemma {:induction false} PostFillsOne(keys: seq<string>, items: seq<Item>, i: nat, id: int)
    requires i < |keys| && Rank(keys, i) == |Queue(items, keys[i])|
    ensures forall j :: 0 <= j < |keys| ==>
              Bind(keys, items + [Item(id, keys[i])], j) == if j == i then id else Bind(keys, items, j)
    ensures Surplus(keys, items + [Item(id, keys[i])]) == Surplus(keys, items)
  {
    RankBelowCount(keys, i);
    AppendSurplus(keys, items, Item(id, keys[i]));
    hide Bind, Queue, Rank, Surplus;
    forall j | 0 <= j < |keys|
      ensures Bind(keys, items + [Item(id, keys[i])], j) == if j == i then id else Bind(keys, items, j)
    {
      PostBinds(keys, items, i, id, j);
    }
  }

  lemma {:induction false} PostOne(desired: seq<FlagSpec>, existing: seq<Flag>, i: nat, flags: seq<Flag>, id: int)
    requires i < |desired| && Posting(desired, existing, i, flags)
    requires Bind(WantedFlags(desired), FlagItems(existing), i) < 0
    requires id >= 0 && forall f :: f in flags ==> f.id != id
    ensures Posting(desired, existing, i + 1, flags + [NewFlag(desired[i], id)])
  {
    hide Bind, Queue, Rank, Surplus, Have, FlagItems, UniqueIds, WantedFlags, FlagKey, NewFlag;
    var keys, items := WantedFlags(desired), FlagItems(flags);
    FlagIdsDiffer(flags, id);
    WantedFlagAt(desired, i);
    FlagItemsAppend(flags, desired[i], id);
    PostIsMissing(desired, existing, i, flags);
    AppendUnique(items, Item(id, keys[i]));
    PostFillsOne(keys, items, i, id);
  }

  lemma {:induction false} FlagIdsDiffer(flags: seq<Flag>, id: int)
    requires forall f :: f in flags ==> f.id != id
    ensures forall p :: 0 <= p < |FlagItems(flags)| ==> FlagItems(flags)[p].id != id
  {
    assert forall p :: 0 <= p < |flags| ==> flags[p] in flags;
  }

  lemma {:induction false} WantedFlagAt(desired: seq<FlagSpec>, i: nat)
    requires i < |desired|
    ensures WantedFlags(desired)[i] == FlagKey(desired[i].content, desired[i].typ, desired[i].data)
  {
  }

  /** A change of the collection by one key in the right direction. */
  ghost predicate Nearer(want: multiset<string>, a: multiset<string>, b: multiset<string>, k: string) {
    (a[k] < want[k] && b == a + multiset{k}) || (a[k] > want[k] && b == a - multiset{k})
  }

  lemma {:induction false} NearerByOne(want: multiset<string>, a: multiset<string>, b: multiset<string>, k: string)
    requires Nearer(want, a, b, k)
    ensures Distance(want, b) == Distance(want, a) - 1
    ensures forall x :: Towards(a[x], b[x], want[x])
  {
    if a[k] < want[k] {
      AddingMissing(want, a, k);
    } else {
      RemovingSurplus(want, a, k);
    }
  }

  /** The state after a write was sent, which brings the collection nearer or does
      not take effect. */
  lemma {:induction false} WriteProgress(desired: seq<FlagSpec>, a: FlagState, w: Write, b: FlagState, k: string)
    requires b.line == a.line.Sent(w) && UniqueIds(FlagItems(b.flags))
    requires if a.line.Next().fault == Refused then b.flags == a.flags
             else Nearer(Want(desired), Have(a.flags), Have(b.flags), k)
    ensures FlagProgress(desired, a, b) && |b.line.log| > |a.line.log|
    ensures a.line.Quiet() ==> a.line.Next().fault == Served && b.line.Quiet()
  {
    hide Distance, Have, Want, Nearer;
    SentApplies(a.line, w);
    if a.line.Next().fault != Refused {
      NearerByOne(Want(desired), Have(a.flags), Have(b.flags), k);
    }
  }

  lemma {:induction false} PostFlagStep(desired: seq<FlagSpec>, existing: seq<Flag>, i: nat, taken: set<int>,
      s: FlagState)
    requires i < |desired| && Posting(desired, existing, i, s.flags)
    requires Bind(WantedFlags(desired), FlagItems(existing), i) < 0
    ensures var (s', ok) := PostFlagCall(s, taken, desired[i]);
            && FlagProgress(desired, s, s')
            && (ok ==> Posting(desired, existing, i + 1, s'.flags))
            && |s'.line.log| > |s.line.log|
            && (s.line.Quiet() ==> ok && s'.line.Quiet())
  {
    var id := FreshId(taken + (set f | f in s.flags :: f.id), s.line.Next().id);
    PostOne(desired, existing, i, s.flags, id);
    PostIsMissing(desired, existing, i, s.flags);
    FlagItemsAppend(s.flags, desired[i], id);
    WriteProgress(desired, s, PostFlag, PostFlagCall(s, taken, desired[i]).0, WantedFlags(desired)[i]);
  }

  lemma {:induction false} PostingUnique(desired: seq<FlagSpec>, existing: seq<Flag>, i: nat, flags: seq<Flag>)
    ensures Posting(desired, existing, i, flags) ==> UniqueIds(FlagItems(flags))
  {
  }

  lemma {:induction false} PostingSkips(desired: seq<FlagSpec>, existing: seq<Flag>, i: nat, flags: seq<Flag>)
    requires i < |desired| && Bind(WantedFlags(desired), FlagItems(existing), i) >= 0
    ensures Posting(desired, existing, i, flags) ==> Posting(desired, existing, i + 1, flags)
  {
    hide Bind, FlagItems, WantedFlags, SurplusFlags;
  }

  lemma {:induction false} PostPhase(desired: seq<FlagSpec>, existing: seq<Flag>, i: nat, taken: set<int>, s: FlagState)
    requires i <= |desired|
    ensures var (s', ok) := PostMissing(desired, existing, i, taken, s);
            Posting(desired, existing, i, s.flags) ==>
              && FlagProgress(desired, s, s')
              && (ok ==> Posting(desired, existing, |desired|, s'.flags))
              && (s.line.Quiet() ==> ok && s'.line.Quiet())
    decreases |desired| - i
  {
    hide PostFlagCall, FlagProgress, FlagItems, WantedFlags, Posting, Bind, Line.Quiet;
    if Posting(desired, existing, i, s.flags) {
      if i == |desired| {
        PostingUnique(desired, existing, i, s.flags);
        FlagProgressReflexive(desired, s);
      } else if Bind(WantedFlags(desired), FlagItems(existing), i) >= 0 {
        PostingSkips(desired, existing, i, s.flags);
        PostPhase(desired, existing, i + 1, taken, s);
      } else {
        PostFlagStep(desired, existing, i, taken, s);
        var (s', ok) := PostFlagCall(s, taken, desired[i]);
        if ok {
          PostPhase(desired, existing, i + 1, taken, s');
          FlagProgressTransitive(desired, s, s', PostMissing(desired, existing, i + 1, taken, s').0);
        }
      }
    }
  }

  lemma {:induction false} FlagProgressReflexive(desired: seq<FlagSpec>, s: FlagState)
    ensures UniqueIds(FlagItems(s.flags)) ==> FlagProgress(desired, s, s)
  {
  }

  ghost predicate Deleting(desired: seq<FlagSpec>, deletes: seq<int>, flags: seq<Flag>) {
    && UniqueIds(FlagItems(flags))
    && (forall j :: 0 <= j < |desired| ==> Bind(WantedFlags(desired), FlagItems(flags), j) >= 0)
    && forall id :: multiset(deletes)[id] <= 1 && (id in multiset(deletes) <==> id in SurplusFlags(desired, flags))
  }

  lemma {:induction false} DeleteOne(desired: seq<FlagSpec>, deletes: seq<int>, flags: seq<Flag>) returns (k: string)
    requires deletes != [] && Deleting(desired, deletes, flags)
    ensures Deleting(desired, deletes[1..], DropFlag(flags, deletes[0]))
    ensures Have(flags)[k] > Want(desired)[k]
    ensures Have(DropFlag(flags, deletes[0])) == Have(flags) - multiset{k}
  {
    var id, keys, items := deletes[0], WantedFlags(desired), FlagItems(flags);
    assert deletes == [id] + deletes[1..];
    assert multiset(deletes) == multiset{id} + multiset(deletes[1..]);
    assert id in multiset(deletes);
    FlagItemsDrop(flags, id);
    UniqueWithout(items, id);
    forall j | 0 <= j < |desired| ensures Bind(keys, WithoutId(items, id), j) >= 0 {
      BindWithout(keys, items, id, j);
    }
    forall x ensures multiset(deletes[1..])[x] <= 1
                  && (x in multiset(deletes[1..]) <==> x in SurplusFlags(desired, DropFlag(flags, id)))
    {
      SurplusWithout(keys, items, id, x);
      assert multiset(deletes)[x] <= 1;
    }
    k := DropsOneKey(keys, flags, id);
  }

  lemma {:induction false} DropsOneKey(keys: seq<string>, flags: seq<Flag>, id: int) returns (k: string)
    requires UniqueIds(FlagItems(flags)) && id in Surplus(keys, FlagItems(flags))
    ensures Have(flags)[k] > multiset(keys)[k]
    ensures Have(DropFlag(flags, id)) == Have(flags) - multiset{k}
  {
    hide Have, DropFlag;
    var items := FlagItems(flags);
    FlagItemsDrop(flags, id);
    k := SurplusShrinks(keys, items, id, "");
    HaveCounts(flags, k);
    var p :| 0 <= p < |items| && items[p] == Item(id, k);
    forall x ensures Have(DropFlag(flags, id))[x] == (Have(flags) - multiset{k})[x] {
      QueueShrinks(items, p, x);
      HaveCounts(flags, x);
      HaveCounts(DropFlag(flags, id), x);
    }
  }

  lemma {:induction false} DeleteFlagStep(desired: seq<FlagSpec>, deletes: seq<int>, s: FlagState)
    requires deletes != [] && Deleting(desired, deletes, s.flags)
    ensures var (s', ok) := DeleteFlagCall(s, deletes[0]);
            && FlagProgress(desired, s, s')
            && (ok ==> Deleting(desired, deletes[1..], s'.flags))
            && |s'.line.log| > |s.line.log|
            && (s.line.Quiet() ==> ok && s'.line.Quiet())
  {
    var k := DeleteOne(desired, deletes, s.flags);
    WriteProgress(desired, s, DeleteFlag(deletes[0]), DeleteFlagCall(s, deletes[0]).0, k);
  }

  lemma {:induction false} DeleteFlagPhase(desired: seq<FlagSpec>, deletes: seq<int>, s: FlagState)
    ensures var (s', ok) := DeleteFlags(deletes, s);
            Deleting(desired, deletes, s.flags) ==>
              && FlagProgress(desired, s, s')
              && (ok ==> FlagsUpToDate(desired, s'.flags))
              && (s.line.Quiet() ==> ok && s'.line.Quiet())
    decreases |deletes|
  {
    if Deleting(desired, deletes, s.flags) {
      if deletes == [] {
        FlagProgressReflexive(desired, s);
        NothingLeft(desired, deletes, s.flags);
      } else {
        hide DeleteFlagCall, FlagProgress, Deleting, FlagsUpToDate;
        DeleteFlagStep(desired, deletes, s);
        var (s', ok) := DeleteFlagCall(s, deletes[0]);
        if ok {
          DeleteFlagPhase(desired, deletes[1..], s');
          FlagProgressTransitive(desired, s, s', DeleteFlags(deletes[1..], s').0);
        }
      }
    }
  }

  lemma {:induction false} NothingLeft(desired: seq<FlagSpec>, deletes: seq<int>, flags: seq<Flag>)
    requires deletes == [] && Deleting(desired, deletes, flags)
    ensures FlagsUpToDate(desired, flags)
  {
    if SurplusFlags(desired, flags) != [] {
      var id := SomeElement(SurplusFlags(desired, flags));
    }
    PerfectMatching(WantedFlags(desired), FlagItems(flags));
    forall k ensures Want(desired)[k] == Have(flags)[k] {
      HaveCounts(flags, k);
    }
  }

  // ---------- what the flag synchronisation guarantees ----------

  lemma {:induction false} StartsPosting(desired: seq<FlagSpec>, flags: seq<Flag>)
    requires UniqueIds(FlagItems(flags))
    ensures Posting(desired, flags, 0, flags)
  {
  }

  lemma {:induction false} PostedIsDeleting(desired: seq<FlagSpec>, existing: seq<Flag>, flags: seq<Flag>,
      deletes: seq<int>)
    requires Posting(desired, existing, |desired|, flags) && IsFlagOrder(desired, existing, deletes)
    ensures Deleting(desired, deletes, flags)
  {
    forall id ensures multiset(deletes)[id] <= 1 && (id in multiset(deletes) <==> id in SurplusFlags(desired, flags)) {
      SurplusOnce(WantedFlags(desired), FlagItems(flags), id);
      assert id in SurplusFlags(desired, flags) <==> id in multiset(SurplusFlags(desired, flags));
    }
  }

  /** Whatever calls fail, every effective write brings the flags one step nearer;
      success means they are what was asked for, and without failures there is success. */
  lemma {:induction false} SyncFlagsProgress(desired: seq<FlagSpec>, taken: set<int>, s: FlagState, deletes: seq<int>)
    requires UniqueIds(FlagItems(s.flags)) && IsFlagOrder(desired, s.flags, deletes)
    ensures var (s', ok) := SyncFlags(desired, taken, s, deletes);
            && FlagProgress(desired, s, s')
            && (ok ==> FlagsUpToDate(desired, s'.flags))
            && (s.line.Quiet() ==> ok)
  {
    hide PostMissing, DeleteFlags, Deleting, Posting, FlagsUpToDate;
    var (line, listed) := s.line.ReadMany(1);
    ReadManyKeepsLog(s.line, 1);
    var s1 := s.(line := line);
    FlagProgressReflexive(desired, s);
    if listed {
      var (s2, posted) := PostMissing(desired, s.flags, 0, taken, s1);
      StartsPosting(desired, s.flags);
      PostPhase(desired, s.flags, 0, taken, s1);
      FlagProgressTransitive(desired, s, s1, s2);
      if posted {
        PostedIsDeleting(desired, s.flags, s2.flags, deletes);
        DeleteFlagPhase(desired, deletes, s2);
        FlagProgressTransitive(desired, s, s2, DeleteFlags(deletes, s2).0);
      }
    }
  }

  /** Without failures the number of writes sent is the distance, and by NoShorterWay
      no other way of reaching the wanted flags needs fewer. */
  lemma {:induction false} MinimumWrites(desired: seq<FlagSpec>, taken: set<int>, s: FlagState, deletes: seq<int>)
    requires UniqueIds(FlagItems(s.flags)) && IsFlagOrder(desired, s.flags, deletes) && s.line.Quiet()
    ensures var (s', ok) := SyncFlags(desired, taken, s, deletes);
            && ok && FlagsUpToDate(desired, s'.flags)
            && |s'.line.log| - |s.line.log| == Distance(Want(desired), Have(s.flags))
  {
    SyncFlagsProgress(desired, taken, s, deletes);
    DistanceZero(Want(desired), Have(SyncFlags(desired, taken, s, deletes).0.flags));
  }

  ghost predicate AllKept(desired: seq<FlagSpec>, existing: seq<Flag>, i: nat) {
    forall j :: i <= j < |desired| ==> Bind(WantedFlags(desired), FlagItems(existing), j) >= 0
  }

  lemma {:induction false} KeptStep(desired: seq<FlagSpec>, existing: seq<Flag>, i: nat)
    requires i < |desired|
    ensures AllKept(desired, existing, i)
       <==> Bind(WantedFlags(desired), FlagItems(existing), i) >= 0 && AllKept(desired, existing, i + 1)
  {
    hide Bind, FlagItems, WantedFlags;
  }

  lemma {:induction false} PostFlagLine(s: FlagState, taken: set<int>, d: FlagSpec)
    ensures PostFlagCall(s, taken, d).0.line == s.line.Sent(PostFlag)
  {
  }

  lemma {:induction false} PostTraffic(desired: seq<FlagSpec>, existing: seq<Flag>, i: nat, taken: set<int>,
      s: FlagState)
    requires i <= |desired|
    ensures var (s', ok) := PostMissing(desired, existing, i, taken, s);
            && |s'.line.log| >= |s.line.log|
            && (AllKept(desired, existing, i) ==> (s', ok) == (s, true))
            && (!AllKept(desired, existing, i) ==> |s'.line.log| > |s.line.log|)
    decreases |desired| - i
  {
    hide PostFlagCall, Bind, FlagItems, WantedFlags;
    if i < |desired| {
      KeptStep(desired, existing, i);
      if Bind(WantedFlags(desired), FlagItems(existing), i) >= 0 {
        PostTraffic(desired, existing, i + 1, taken, s);
      } else {
        var (s', ok) := PostFlagCall(s, taken, desired[i]);
        PostFlagLine(s, taken, desired[i]);
        SentApplies(s.line, PostFlag);
        if ok {
          PostTraffic(desired, existing, i + 1, taken, s');
        }
      }
    }
  }

  lemma {:induction false} DeleteTraffic(deletes: seq<int>, s: FlagState)
    ensures |DeleteFlags(deletes, s).0.line.log| >= |s.line.log|
    ensures deletes != [] ==> |DeleteFlags(deletes, s).0.line.log| > |s.line.log|
    decreases |deletes|
  {
    if deletes != [] {
      var (s', ok) := DeleteFlagCall(s, deletes[0]);
      SentApplies(s.line, DeleteFlag(deletes[0]));
      if ok {
        DeleteTraffic(deletes[1..], s');
      }
    }
  }

  lemma {:induction false} UpToDateMeansMatched(desired: seq<FlagSpec>, flags: seq<Flag>)
    requires UniqueIds(FlagItems(flags))
    ensures FlagsUpToDate(desired, flags) <==>
            SurplusFlags(desired, flags) == [] && AllKept(desired, flags, 0)
  {
    PerfectMatching(WantedFlags(desired), FlagItems(flags));
    forall k ensures Have(flags)[k] == |Queue(FlagItems(flags), k)| {
      HaveCounts(flags, k);
    }
  }

  /** Detection and actuation agree: once the flags could be listed, a write is sent
      exactly when Observe would not have called them up to date. */
  lemma {:induction false} FlagWritesExactlyOnDrift(desired: seq<FlagSpec>, taken: set<int>, s: FlagState,
      deletes: seq<int>)
    requires UniqueIds(FlagItems(s.flags)) && IsFlagOrder(desired, s.flags, deletes)
    ensures var (s', ok) := SyncFlags(desired, taken, s, deletes);
            && (FlagsUpToDate(desired, s.flags) ==> s'.flags == s.flags && s'.line.log == s.line.log)
            && (s.line.Next().fault == Served ==> (s'.line.log == s.line.log <==> FlagsUpToDate(desired, s.flags)))
  {
    hide FlagsUpToDate, Bind;
    var (line, listed) := s.line.ReadMany(1);
    ReadManyKeepsLog(s.line, 1);
    assert listed <==> s.line.Next().fault == Served;
    var s1 := s.(line := line);
    UpToDateMeansMatched(desired, s.flags);
    PostTraffic(desired, s.flags, 0, taken, s1);
    var (s2, posted) := PostMissing(desired, s.flags, 0, taken, s1);
    DeleteTraffic(deletes, s2);
    assert |deletes| == |multiset(deletes)| == |multiset(SurplusFlags(desired, s.flags))|
        == |SurplusFlags(desired, s.flags)|;
  }

  // ---------- every run of retries ----------

  datatype FlagAttempt = FlagAttempt(replies: seq<Reply>, deletes: seq<int>, taken: set<int>)

  ghost predicate IsFlagAttempt(desired: seq<FlagSpec>, a: FlagState, t: FlagAttempt, b: FlagState) {
    && IsFlagOrder(desired, a.flags, t.deletes)
    && b == SyncFlags(desired, t.taken, FlagState(a.flags, Line(t.replies, a.line.log)), t.deletes).0
  }

  /** Any number of attempts for one specification, failing in any way; the log
      goes on from one attempt to the next. */
  ghost predicate IsFlagRun(desired: seq<FlagSpec>, attempts: seq<FlagAttempt>, trace: seq<FlagState>) {
    && |trace| == |attempts| + 1
    && forall t :: 0 <= t < |attempts| ==> IsFlagAttempt(desired, trace[t], attempts[t], trace[t + 1])
  }

  /** What a run keeps, with the server's answers left out. */
  ghost predicate FlagCourse(desired: seq<FlagSpec>, a: FlagState, b: FlagState) {
    && UniqueIds(FlagItems(b.flags))
    && (forall k :: Towards(Have(a.flags)[k], Have(b.flags)[k], Want(desired)[k]))
    && Applied(b.line.log) + Distance(Want(desired), Have(b.flags))
       == Applied(a.line.log) + Distance(Want(desired), Have(a.flags))
  }

  lemma {:induction false} FlagCourseReflexive(desired: seq<FlagSpec>, a: FlagState)
    ensures UniqueIds(FlagItems(a.flags)) ==> FlagCourse(desired, a, a)
  {
  }

  lemma {:induction false} AttemptCourse(desired: seq<FlagSpec>, a: FlagState, b: FlagState, t: FlagAttempt,
      c: FlagState)
    ensures FlagCourse(desired, a, b) && IsFlagAttempt(desired, b, t, c) ==> FlagCourse(desired, a, c)
  {
    if FlagCourse(desired, a, b) && IsFlagAttempt(desired, b, t, c) {
      var s := FlagState(b.flags, Line(t.replies, b.line.log));
      SyncFlagsProgress(desired, t.taken, s, t.deletes);
      forall k ensures Towards(Have(a.flags)[k], Have(c.flags)[k], Want(desired)[k]) {
        assert Towards(Have(a.flags)[k], Have(b.flags)[k], Want(desired)[k]);
        assert Towards(Have(s.flags)[k], Have(c.flags)[k], Want(desired)[k]);
      }
    }
  }

  /** Over any run the distance closed equals the writes that took effect: retries
      never post a flag twice, never delete a wanted one, and never waste a write. */
  lemma {:induction false} RunConserves(desired: seq<FlagSpec>, attempts: seq<FlagAttempt>,
      trace: seq<FlagState>, t: nat)
    requires IsFlagRun(desired, attempts, trace) && UniqueIds(FlagItems(trace[0].flags)) && t < |trace|
    ensures FlagCourse(desired, trace[0], trace[t])
  {
    hide FlagCourse, IsFlagAttempt;
    if t == 0 {
      FlagCourseReflexive(desired, trace[0]);
    } else {
      RunConserves(desired, attempts, trace, t - 1);
      assert IsFlagAttempt(desired, trace[t - 1], attempts[t - 1], trace[t - 1 + 1]);
      AttemptCourse(desired, trace[0], trace[t - 1], attempts[t - 1], trace[t]);
    }
  }

  // ---------- how many answers a synchronisation takes ----------

  lemma {:induction false} PostsKeep(desired: seq<FlagSpec>, existing: seq<Flag>, i: nat, taken: set<int>, s: FlagState,
      n: nat)
    requires i <= |desired| && s.line.Keeps(n + |desired| - i)
    ensures var (s', ok) := PostMissing(desired, existing, i, taken, s);
            ok && s'.line.Keeps(n)
    decreases |desired| - i
  {
    hide Bind;
    if i < |desired| {
      KeepsOn(s.line, n + |desired| - i, PostFlag);
      if Bind(WantedFlags(desired), FlagItems(existing), i) >= 0 {
        PostsKeep(desired, existing, i + 1, taken, s, n);
      } else {
        PostsKeep(desired, existing, i + 1, taken, PostFlagCall(s, taken, desired[i]).0, n);
      }
    }
  }

  lemma {:induction false} DeletesKeep(deletes: seq<int>, s: FlagState, n: nat)
    requires s.line.Keeps(n + |deletes|)
    ensures DeleteFlags(deletes, s).1 && DeleteFlags(deletes, s).0.line.Keeps(n)
    decreases |deletes|
  {
    if deletes != [] {
      KeepsOn(s.line, n + |deletes|, DeleteFlag(deletes[0]));
      DeletesKeep(deletes[1..], DeleteFlagCall(s, deletes[0]).0, n);
    }
  }

  lemma {:induction false} FlagSyncKeeps(desired: seq<FlagSpec>, taken: set<int>, s: FlagState, deletes: seq<int>,
      n: nat)
    requires s.line.Keeps(1 + |desired| + |deletes| + n)
    ensures SyncFlags(desired, taken, s, deletes).1 && SyncFlags(desired, taken, s, deletes).0.line.Keeps(n)
  {
    hide Line.Keeps, PostMissing, DeleteFlags;
    ReadsKeep(s.line, 1, 1 + |desired| + |deletes| + n);
    var s1 := s.(line := s.line.ReadMany(1).0);
    PostsKeep(desired, s.flags, 0, taken, s1, n + |deletes|);
    DeletesKeep(deletes, PostMissing(desired, s.flags, 0, taken, s1).0, n);
  }
}

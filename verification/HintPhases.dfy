/** The phases of a hint synchronisation, one after the other: what each has
    achieved when it succeeds, and that it only ever progresses when it does not. */
module HintPhases {
  import opened Wrappers
  import opened Ctfd
  import opened Matching
  import opened PrereqGraph
  import opened HintSync
  import opened HintProgress

  lemma {:induction false} ProgressReflexive(desired: seq<HintSpec>, a: seq<Hint>)
    ensures Sound(a) ==> Progress(desired, a, a)
  {
  }

  lemma {:induction false} ProgressSound(desired: seq<HintSpec>, a: seq<Hint>, b: seq<Hint>)
    ensures Progress(desired, a, b) ==> Sound(b)
  {
  }

  lemma {:induction false} ProgressKeepsId(desired: seq<HintSpec>, a: seq<Hint>, b: seq<Hint>, i: nat)
    requires i < |desired| && Progress(desired, a, b)
    ensures IdOf(desired, a, i) >= 0 ==> IdOf(desired, b, i) == IdOf(desired, a, i)
  {
  }

  lemma {:induction false} UnmentionedIsUnlisted(hints: seq<Hint>, id: int)
    requires id !in Mentioned(hints)
    ensures !HasId(hints, id)
  {
    assert forall p :: 0 <= p < |hints| ==> hints[p] in hints;
  }

  lemma {:induction false} MentionedGrows(a: seq<Hint>, b: seq<Hint>, id: int)
    requires a <= b && id !in Mentioned(b)
    ensures id !in Mentioned(a)
  {
    forall h | h in a ensures h in b {
      var p :| 0 <= p < |a| && a[p] == h;
      assert b[p] == h;
    }
  }

  lemma {:induction false} LookupSource(hints: seq<Hint>, id: int) returns (p: nat)
    requires Lookup(hints, id).Some?
    ensures p < |hints| && hints[p] == Lookup(hints, id).value && hints[p].id == id
  {
    p := |hints| - 1;
    if hints[p].id != id {
      p := LookupSource(hints[..p], id);
    }
  }

  lemma {:induction false} LookupMentions(hints: seq<Hint>, id: int, q: int)
    ensures Lookup(hints, id).Some? ==> id in Mentioned(hints)
    ensures q in PrereqsOf(ReqOf(Lookup(hints, id))) ==> q in Mentioned(hints)
  {
    if Lookup(hints, id).Some? {
      var p := LookupSource(hints, id);
      assert hints[p] in hints;
    }
  }

  // ---------- what creation makes ----------

  /** The id of a desired hint is the one it was listed under, or a new one. */
  ghost predicate Named(desired: seq<HintSpec>, existing: seq<Hint>, id: int, j: nat)
    requires j < |desired|
  {
    if IdOf(desired, existing, j) >= 0 then id == IdOf(desired, existing, j) else id !in Mentioned(existing)
  }

  /** What is stored under it is what was listed, or what was just created. */
  ghost predicate StoredAs(desired: seq<HintSpec>, existing: seq<Hint>, hints: seq<Hint>, id: int, j: nat)
    requires j < |desired|
  {
    Lookup(hints, id) ==
    if IdOf(desired, existing, j) >= 0 then Lookup(existing, id) else Some(Fresh(desired[j], id))
  }

  ghost predicate Made(desired: seq<HintSpec>, existing: seq<Hint>, hints: seq<Hint>, ids: seq<int>) {
    && |ids| == |desired| && existing <= hints
    && forall j :: 0 <= j < |desired| && ids[j] >= 0 ==>
         Named(desired, existing, ids[j], j) && StoredAs(desired, existing, hints, ids[j], j)
  }

  ghost predicate Assigned(desired: seq<HintSpec>, hints: seq<Hint>, ids: seq<int>) {
    |ids| == |desired| && forall j :: 0 <= j < |desired| ==> ids[j] == IdOf(desired, hints, j)
  }

  ghost predicate AllCreated(ids: seq<int>, n: nat) {
    forall j :: 0 <= j < n && j < |ids| ==> ids[j] >= 0
  }

  /** Where the creation loop stands: the ids are those the hints have now, the
      first i of them exist, and they were listed or made for this purpose. */
  ghost predicate Creating(desired: seq<HintSpec>, existing: seq<Hint>, i: nat, ids: seq<int>, hints: seq<Hint>) {
    && Progress(desired, existing, hints)
    && Unwanted(desired, hints) == Unwanted(desired, existing)
    && Assigned(desired, hints, ids) && AllCreated(ids, i)
    && Made(desired, existing, hints, ids)
  }

  lemma {:induction false} CreatingStarts(desired: seq<HintSpec>, hints: seq<Hint>, i: nat, ids: seq<int>)
    requires Sound(hints) && Assigned(desired, hints, ids) && AllCreated(ids, i)
    ensures Creating(desired, hints, i, ids, hints)
  {
    ProgressReflexive(desired, hints);
  }

  lemma {:induction false} OneMoreCreated(desired: seq<HintSpec>, existing: seq<Hint>, i: nat, ids: seq<int>,
      hints: seq<Hint>)
    requires i < |ids| && ids[i] >= 0 && Creating(desired, existing, i, ids, hints)
    ensures Creating(desired, existing, i + 1, ids, hints)
  {
  }

  lemma {:induction false} LookupAppend(hints: seq<Hint>, h: Hint, id: int)
    ensures Lookup(hints + [h], id) == if h.id == id then Some(h) else Lookup(hints, id)
  {
    assert (hints + [h])[..|hints|] == hints;
  }

  lemma {:induction false} PostKeepsEntry(desired: seq<HintSpec>, existing: seq<Hint>, hints: seq<Hint>, h: Hint,
      j: nat)
    requires j < |desired| && Sound(hints) && !HasId(hints, h.id) && IdOf(desired, hints, j) >= 0
    requires StoredAs(desired, existing, hints, IdOf(desired, hints, j), j)
    ensures StoredAs(desired, existing, hints + [h], IdOf(desired, hints, j), j)
  {
    var p := PlaceOf(desired, hints, j);
    LookupAppend(hints, h, IdOf(desired, hints, j));
  }

  lemma {:induction false} PostMakes(desired: seq<HintSpec>, existing: seq<Hint>, i: nat, ids: seq<int>,
      hints: seq<Hint>, id: int)
    requires i < |desired| == |ids| && Sound(hints) && Assigned(desired, hints, ids)
    requires Made(desired, existing, hints, ids) && IdOf(desired, existing, i) < 0 && ids[i] < 0
    requires id !in Mentioned(hints)
    ensures Made(desired, existing, hints + [Fresh(desired[i], id)], ids)
    ensures Made(desired, existing, hints + [Fresh(desired[i], id)], ids[i := id])
  {
    var h := Fresh(desired[i], id);
    UnmentionedIsUnlisted(hints, id);
    MentionedGrows(existing, hints, id);
    LookupAppend(hints, h, id);
    hide Mentioned, IdOf, Lookup, HasId;
    forall j | 0 <= j < |desired| && j != i && ids[j] >= 0
      ensures StoredAs(desired, existing, hints + [h], ids[j], j)
    {
      PostKeepsEntry(desired, existing, hints, h, j);
    }
  }

  /** One creation, as it looks on the server. */
  lemma {:induction false} PostCreates(desired: seq<HintSpec>, existing: seq<Hint>, i: nat, ids: seq<int>,
      hints: seq<Hint>, id: int)
    requires i < |desired| == |ids| && Creating(desired, existing, i, ids, hints) && ids[i] < 0
    requires id >= 0 && id !in Mentioned(hints)
    ensures var b := hints + [Fresh(desired[i], id)];
            && Progress(desired, existing, b)
            && Unwanted(desired, b) == Unwanted(desired, existing)
            && Made(desired, existing, b, ids)
            && Creating(desired, existing, i + 1, ids[i := id], b)
            && forall j :: 0 <= j < |desired| && ids[j] >= 0 ==> IdOf(desired, b, j) == ids[j]
  {
    hide Made, Progress, Unwanted, IdOf, Mentioned, Fresh;
    UnmentionedIsUnlisted(hints, id);
    assert forall j :: 0 <= j < |desired| ==> ids[j] == IdOf(desired, hints, j);
    ProgressSound(desired, existing, hints);
    PostStep(desired, hints, i, id);
    ProgressTransitive(desired, existing, hints, hints + [Fresh(desired[i], id)]);
    ProgressKeepsId(desired, existing, hints, i);
    PostMakes(desired, existing, i, ids, hints, id);
  }

  /** What holds of a creation phase, complete or cut short: progress, and every id
      it knows is the id that the plan now gives. */
  ghost predicate CreatedWell(desired: seq<HintSpec>, existing: seq<Hint>, c: Created) {
    && |c.ids| == |desired|
    && Progress(desired, existing, c.state.hints)
    && (forall j :: 0 <= j < |desired| && c.ids[j] >= 0 ==> IdOf(desired, c.state.hints, j) == c.ids[j])
    && (c.ok ==> Creating(desired, existing, |desired|, c.ids, c.state.hints))
  }

  lemma {:induction false} PostCall(desired: seq<HintSpec>, existing: seq<Hint>, i: nat, ids: seq<int>,
      taken: set<int>, s: HintState)
    requires i < |desired| == |ids| && Creating(desired, existing, i, ids, s.hints) && ids[i] < 0
    ensures var (s', id) := PostHintCall(s, taken, desired[i]);
            && (id.Some? ==> Creating(desired, existing, i + 1, ids[i := id.value], s'.hints))
            && (id.None? ==> CreatedWell(desired, existing, Created(s', ids, false)))
            && Progress(desired, s.hints, s'.hints)
  {
    var x := FreshId(taken + Mentioned(s.hints), s.line.Next().id);
    hide Progress, Made, Unwanted, Mentioned, AllCreated, Assigned, Creating;
    PostCreates(desired, existing, i, ids, s.hints, x);
    CreatingAnew(desired, existing, i, ids, s.hints);
    PostCreates(desired, s.hints, i, ids, s.hints, x);
    CreatingKnows(desired, existing, i, ids, s);
    var (s', id) := PostHintCall(s, taken, desired[i]);
    assert s'.hints == s.hints || s'.hints == s.hints + [Fresh(desired[i], x)];
  }

  lemma {:induction false} CreatingKnows(desired: seq<HintSpec>, existing: seq<Hint>, i: nat, ids: seq<int>,
      s: HintState)
    ensures Creating(desired, existing, i, ids, s.hints) ==>
              CreatedWell(desired, existing, Created(s, ids, i == |desired|)) && Progress(desired, s.hints, s.hints)
  {
  }

  lemma {:induction false} CreatingAnew(desired: seq<HintSpec>, existing: seq<Hint>, i: nat, ids: seq<int>,
      hints: seq<Hint>)
    ensures Creating(desired, existing, i, ids, hints) ==> Creating(desired, hints, i, ids, hints)
  {
    if Creating(desired, existing, i, ids, hints) {
      CreatingStarts(desired, hints, i, ids);
    }
  }

  lemma {:induction false} CreatePhase(desired: seq<HintSpec>, existing: seq<Hint>, i: nat, ids: seq<int>,
      taken: set<int>, s: HintState)
    requires i <= |desired| == |ids|
    ensures Creating(desired, existing, i, ids, s.hints) ==>
              CreatedWell(desired, existing, CreateMissing(desired, i, ids, taken, s))
    decreases |desired| - i
  {
    hide PostHintCall, Progress, Creating, CreatedWell;
    if Creating(desired, existing, i, ids, s.hints) {
      if i == |desired| {
        CreatingKnows(desired, existing, i, ids, s);
      } else if ids[i] >= 0 {
        OneMoreCreated(desired, existing, i, ids, s.hints);
        CreatePhase(desired, existing, i + 1, ids, taken, s);
      } else {
        PostCall(desired, existing, i, ids, taken, s);
        var (s', id) := PostHintCall(s, taken, desired[i]);
        if id.Some? {
          CreatePhase(desired, existing, i + 1, ids[i := id.value], taken, s');
        }
      }
    }
  }

  // ---------- which answer a creation gets ----------

  lemma {:induction false} MissingGrows(desired: seq<HintSpec>, hints: seq<Hint>, i: nat, n: nat)
    requires i <= n <= |desired|
    ensures Missing(desired, hints, i) <= Missing(desired, hints, n)
    decreases n
  {
    hide IdOf;
    if i < n {
      MissingGrows(desired, hints, i, n - 1);
    }
  }

  lemma {:induction false} CreateTurnPasses(desired: seq<HintSpec>, existing: seq<Hint>, i: nat, line: Line, rest: Line)
    requires i < |desired| && line.Leaves(CreateTurn(desired, existing, i), rest)
    ensures IdOf(desired, existing, i) >= 0 ==> line.Leaves(CreateTurn(desired, existing, i + 1), rest)
    ensures IdOf(desired, existing, i) < 0 && rest.Next().fault == Served ==>
              line.Leaves(CreateTurn(desired, existing, i + 1), rest.Sent(PostHint))
    ensures IdOf(desired, existing, i) < 0 && line.Serves(CreateTurn(desired, existing, |desired|)) ==>
              rest.Next().fault == Served
  {
    hide IdOf;
    var n := CreateTurn(desired, existing, i);
    NextIsAnswer(line, n, rest, PostHint);
    MissingGrows(desired, existing, i + 1, |desired|);
  }

  /** Creations get their answers in turn, one for each missing hint. */
  lemma {:induction false} CreateLeaves(desired: seq<HintSpec>, existing: seq<Hint>, i: nat, ids: seq<int>,
      taken: set<int>, s: HintState, line: Line)
    requires i <= |desired| == |ids| && line.Leaves(CreateTurn(desired, existing, i), s.line)
    requires forall j :: i <= j < |desired| ==> ids[j] == IdOf(desired, existing, j)
    ensures var c := CreateMissing(desired, i, ids, taken, s);
            && (c.ok ==> line.Leaves(CreateTurn(desired, existing, |desired|), c.state.line))
            && (line.Serves(CreateTurn(desired, existing, |desired|)) ==> c.ok)
    decreases |desired| - i
  {
    hide Line.Leaves, Line.Serves, IdOf, CreateTurn;
    if i < |desired| {
      CreateTurnPasses(desired, existing, i, line, s.line);
      if ids[i] >= 0 {
        CreateLeaves(desired, existing, i + 1, ids, taken, s, line);
      } else {
        var (s', id) := PostHintCall(s, taken, desired[i]);
        if id.Some? {
          CreateLeaves(desired, existing, i + 1, ids[i := id.value], taken, s', line);
        }
      }
    }
  }

  // ---------- wiring ----------

  lemma {:induction false} MappedFrom(idx: seq<int>, ids: seq<int>, x: int) returns (e: int)
    requires (forall p :: p in idx ==> 0 <= p < |ids|) && x in MapPrereqs(idx, ids)
    ensures e in idx && 0 <= e < |ids| && ids[e] == x
  {
    var k :| 0 <= k < |idx| && MapPrereqs(idx, ids)[k] == x;
    e := idx[k];
  }

  lemma {:induction false} MapsTo(idx: seq<int>, ids: seq<int>, e: int)
    requires (forall p :: p in idx ==> 0 <= p < |ids|) && e in idx
    ensures ids[e] in MapPrereqs(idx, ids)
  {
    var k :| 0 <= k < |idx| && idx[k] == e;
    assert MapPrereqs(idx, ids)[k] == ids[e];
  }

  ghost predicate AllNamed(desired: seq<HintSpec>, existing: seq<Hint>, ids: seq<int>) {
    |ids| == |desired| && forall j :: 0 <= j < |desired| ==> Named(desired, existing, ids[j], j)
  }

  /** A new hint is in nobody's listed requirements. */
  lemma {:induction false} NewPrereqUnsettles(desired: seq<HintSpec>, existing: seq<Hint>, ids: seq<int>,
      j: nat, e: int)
    requires j < |desired| && Resolvable(desired) && AllNamed(desired, existing, ids)
    requires e in desired[j].prerequisites && 0 <= e < |desired| && IdOf(desired, existing, e) < 0
    ensures !SettledAt(desired, existing, ids, j)
  {
    hide Mentioned, Lookup, IdOf;
    var want, listed := MapPrereqs(desired[j].prerequisites, ids), PrereqsOf(ReqOf(Lookup(existing, ids[j])));
    MapsTo(desired[j].prerequisites, ids, e);
    assert Named(desired, existing, ids[e], e);
    LookupMentions(existing, ids[j], ids[e]);
    assert ids[e] in multiset(want) && ids[e] !in multiset(listed);
  }

  lemma {:induction false} SameWant(desired: seq<HintSpec>, existing: seq<Hint>, ids: seq<int>, j: nat)
    requires j < |desired| && Resolvable(desired) && AllNamed(desired, existing, ids)
    requires forall e :: e in desired[j].prerequisites ==> 0 <= e < |desired| && IdOf(desired, existing, e) >= 0
    ensures MapPrereqs(desired[j].prerequisites, ids)
         == MapPrereqs(desired[j].prerequisites, Ids(desired, existing))
  {
    var idx := desired[j].prerequisites;
    forall k | 0 <= k < |idx|
      ensures 0 <= idx[k] < |desired| && ids[idx[k]] == Ids(desired, existing)[idx[k]]
    {
      assert idx[k] in idx;
      assert Named(desired, existing, ids[idx[k]], idx[k]);
      assert Ids(desired, existing)[idx[k]] == IdOf(desired, existing, idx[k]);
    }
  }

  lemma {:induction false} ListedIsNonNegative(hints: seq<Hint>, id: int)
    requires Sound(hints) && Lookup(hints, id).Some?
    ensures id >= 0
  {
    var p := LookupSource(hints, id);
    assert Items(hints)[p].id == id;
  }

  /** The same entry is looked up for hint j whether or not it had to be created. */
  lemma {:induction false} SameListing(desired: seq<HintSpec>, existing: seq<Hint>, ids: seq<int>, j: nat)
    requires j < |desired| && Sound(existing) && AllNamed(desired, existing, ids)
    ensures Lookup(existing, ids[j]) == Lookup(existing, Ids(desired, existing)[j])
  {
    assert Ids(desired, existing)[j] == IdOf(desired, existing, j);
    assert Named(desired, existing, ids[j], j);
    if IdOf(desired, existing, j) < 0 {
      if Lookup(existing, IdOf(desired, existing, j)).Some? {
        ListedIsNonNegative(existing, IdOf(desired, existing, j));
      }
      LookupMentions(existing, ids[j], 0);
    }
  }

  ghost predicate AllBelow(indexes: seq<int>, n: nat) {
    forall p :: p in indexes ==> 0 <= p < n
  }

  lemma {:induction false} InitBelow(indexes: seq<int>, n: nat)
    requires indexes != [] && AllBelow(indexes, n)
    ensures AllBelow(indexes[..|indexes| - 1], n) && 0 <= indexes[|indexes| - 1] < n
  {
    var init, last := indexes[..|indexes| - 1], indexes[|indexes| - 1];
    assert last in indexes;
    forall p | p in init ensures 0 <= p < n {
      assert p in indexes;
    }
  }

  lemma {:induction false} MapNone(ids: seq<int>)
    ensures MapPrereqs([], ids) == []
  {
  }

  lemma {:induction false} MapPrereqsLast(indexes: seq<int>, ids: seq<int>)
    requires indexes != [] && AllBelow(indexes, |ids|)
    ensures AllBelow(indexes[..|indexes| - 1], |ids|) && 0 <= indexes[|indexes| - 1] < |ids|
    ensures multiset(MapPrereqs(indexes, ids))
         == multiset(MapPrereqs(indexes[..|indexes| - 1], ids)) + multiset{ids[indexes[|indexes| - 1]]}
  {
    InitBelow(indexes, |ids|);
    assert MapPrereqs(indexes, ids)
        == MapPrereqs(indexes[..|indexes| - 1], ids) + [ids[indexes[|indexes| - 1]]];
  }

  lemma {:induction false} MappedBag(desired: seq<HintSpec>, hints: seq<Hint>, indexes: seq<int>)
    requires AllBelow(indexes, |desired|)
    ensures multiset(MapPrereqs(indexes, Ids(desired, hints))) == WantedBy(desired, hints, indexes)
  {
    hide IdOf, Ids, MapPrereqs;
    if indexes == [] {
      MapNone(Ids(desired, hints));
    } else {
      InitBelow(indexes, |desired|);
      MappedBag(desired, hints, indexes[..|indexes| - 1]);
      MapPrereqsLast(indexes, Ids(desired, hints));
      IdsAre(desired, hints);
    }
  }

  lemma {:induction false} ListedSettledIff(desired: seq<HintSpec>, hints: seq<Hint>, j: nat)
    requires j < |desired| && Sound(hints) && Resolvable(desired) && IdOf(desired, hints, j) >= 0
    ensures SettledAt(desired, hints, Ids(desired, hints), j) <==> Fulfilled(desired, hints, j)
  {
    hide MapPrereqs, IdOf, Ids;
    var p := PlaceOf(desired, hints, j);
    MappedBag(desired, hints, desired[j].prerequisites);
    IdsAre(desired, hints);
    forall q | 0 <= q < |hints| && Fulfils(desired, hints, j, hints[q]) ensures q == p {
      assert Items(hints)[q].id == Items(hints)[p].id;
    }
  }

  lemma {:induction false} EmptyMap(idx: seq<int>, ids: seq<int>)
    requires forall p :: p in idx ==> 0 <= p < |ids|
    ensures multiset(MapPrereqs(idx, ids)) == multiset{} <==> idx == []
  {
    if idx != [] {
      assert MapPrereqs(idx, ids)[0] in multiset(MapPrereqs(idx, ids));
    }
  }

  lemma {:induction false} UnlistedSettledIff(desired: seq<HintSpec>, hints: seq<Hint>, j: nat)
    requires j < |desired| && Sound(hints) && Resolvable(desired) && IdOf(desired, hints, j) < 0
    ensures SettledAt(desired, hints, Ids(desired, hints), j) <==> desired[j].prerequisites == []
  {
    hide MapPrereqs, IdOf, Ids, Sound;
    IdsAre(desired, hints);
    if Lookup(hints, IdOf(desired, hints, j)).Some? {
      ListedIsNonNegative(hints, IdOf(desired, hints, j));
    }
    EmptyMap(desired[j].prerequisites, Ids(desired, hints));
  }

  /** The patch loop, which sees the ids of the created hints too, patches exactly the
      hints that the listing already shows to need it. */
  lemma {:induction false} UnsettledIff(desired: seq<HintSpec>, existing: seq<Hint>, ids: seq<int>, j: nat)
    requires j < |desired| && Sound(existing) && Resolvable(desired) && AllNamed(desired, existing, ids)
    ensures !SettledAt(desired, existing, ids, j) <==> NeedsPatch(desired, existing, j)
  {
    hide Lookup, IdOf, AllNamed, Settled, Ids, Fulfilled, MapPrereqs;
    var idx := desired[j].prerequisites;
    if p :| p in idx && 0 <= p < |desired| && IdOf(desired, existing, p) < 0 {
      NewPrereqUnsettles(desired, existing, ids, j, p);
    } else {
      SameWant(desired, existing, ids, j);
      SameListing(desired, existing, ids, j);
      if IdOf(desired, existing, j) >= 0 {
        ListedSettledIff(desired, existing, j);
      } else {
        UnlistedSettledIff(desired, existing, j);
      }
    }
  }

  ghost predicate PlacedUpTo(desired: seq<HintSpec>, hints: seq<Hint>, i: nat)
    requires i <= |desired|
  {
    Resolvable(desired) && forall j :: 0 <= j < i ==> PlacedAt(desired, hints, j)
  }

  ghost predicate StoredFrom(desired: seq<HintSpec>, existing: seq<Hint>, hints: seq<Hint>, ids: seq<int>, i: nat) {
    |ids| == |desired| && forall j :: i <= j < |desired| ==> StoredAs(desired, existing, hints, ids[j], j)
  }

  /** Where the wiring loop stands: all hints exist, the first i have their
      requirements, and the others are still as listed or as created. */
  ghost predicate Wiring(desired: seq<HintSpec>, existing: seq<Hint>, i: nat, ids: seq<int>, hints: seq<Hint>)
    requires i <= |desired|
  {
    && Sound(existing) && Sound(hints)
    && Assigned(desired, hints, ids) && AllCreated(ids, |desired|) && AllNamed(desired, existing, ids)
    && StoredFrom(desired, existing, hints, ids, i)
    && PlacedUpTo(desired, hints, i)
  }

  lemma {:induction false} WiringIds(desired: seq<HintSpec>, existing: seq<Hint>, i: nat, ids: seq<int>,
      hints: seq<Hint>)
    requires i <= |desired| && Wiring(desired, existing, i, ids, hints)
    ensures ids == Ids(desired, hints)
    ensures forall j :: 0 <= j < |desired| ==> IdOf(desired, hints, j) == ids[j] >= 0
  {
  }

  lemma {:induction false} CreatedIsWiring(desired: seq<HintSpec>, existing: seq<Hint>, ids: seq<int>, hints: seq<Hint>)
    requires Resolvable(desired) && Sound(existing) && Creating(desired, existing, |desired|, ids, hints)
    ensures Wiring(desired, existing, 0, ids, hints)
  {
  }

  lemma {:induction false} WiringAfterPatch(desired: seq<HintSpec>, existing: seq<Hint>, ids: seq<int>, i: nat,
      a: seq<Hint>, b: seq<Hint>)
    requires i < |desired| && Wiring(desired, existing, i, ids, a)
    requires Items(b) == Items(a) && Sound(b) && PlacedAt(desired, b, i)
    requires OthersSame(a, b, ids[i])
    ensures Wiring(desired, existing, i + 1, ids, b)
  {
    WiringIds(desired, existing, i, ids, a);
    SameItems(desired, a, b);
    BoundHasOwnId(desired, a, i);
    forall j | 0 <= j < i ensures PlacedAt(desired, b, j) {
      PlacedCarries(desired, a, b, j);
    }
    forall j | i + 1 <= j < |ids| ensures StoredAs(desired, existing, b, ids[j], j) {
      assert ids[j] == IdOf(desired, a, j) != IdOf(desired, a, i);
    }
  }

  /** A title that a patch would leave standing was already listed. */
  lemma {:induction false} TitleWasListed(desired: seq<HintSpec>, existing: seq<Hint>, hints: seq<Hint>,
      ids: seq<int>, i: nat)
    requires i < |desired| && AllNamed(desired, existing, ids) && StoredAs(desired, existing, hints, ids[i], i)
    ensures desired[i].title.None? && TitleOf(Lookup(hints, ids[i])) != "" <==> MisTitled(desired, existing, i)
  {
    assert Named(desired, existing, ids[i], i);
  }

  lemma {:induction false} SpoiledAtOne(desired: seq<HintSpec>, existing: seq<Hint>, line: Line, i: nat, rest: Line)
    requires i < |desired| && Resolvable(desired)
    ensures OnTurn(desired, existing, line, i, rest) && SpoiledAt(desired, existing, line, i) ==>
              Spoiled(desired, existing, line)
  {
    hide Unlockable, SpoiledAt;
  }

  /** A patch leaves a title standing exactly if it is one of those that spoil. */
  lemma {:induction false} LeavesTitleIff(desired: seq<HintSpec>, existing: seq<Hint>, ids: seq<int>, i: nat,
      s: HintState, line: Line)
    requires i < |desired| && Resolvable(desired) && Wiring(desired, existing, i, ids, s.hints)
    requires !SettledAt(desired, existing, ids, i) && line.Leaves(PatchTurn(desired, existing, i), s.line)
    ensures SpoiledAt(desired, existing, line, i) <==>
              && s.line.Next().fault != Refused
              && LeavesTitle(desired[i], TitleOf(Lookup(s.hints, ids[i])), s.line.Next().keepUnset)
  {
    hide Lookup, IdOf, AllNamed, Settled, Ids, NeedsPatch, SettledAt, Resolvable, Assigned, AllCreated, PlacedUpTo;
    UnsettledIff(desired, existing, ids, i);
    TitleWasListed(desired, existing, s.hints, ids, i);
    NextIsAnswer(line, PatchTurn(desired, existing, i), s.line, PostHint);
  }

  ghost predicate WiredWell(desired: seq<HintSpec>, a: seq<Hint>, b: seq<Hint>, ok: bool) {
    Progress(desired, a, b) && Items(b) == Items(a) && (ok ==> InPlace(desired, b))
  }

  /** One patch that leaves no title standing, served or not. */
  lemma {:induction false} PatchCall(desired: seq<HintSpec>, existing: seq<Hint>, ids: seq<int>, i: nat, s: HintState)
    requires i < |desired| == |ids| && Resolvable(desired) && Wiring(desired, existing, i, ids, s.hints)
    requires s.line.Next().fault != Refused ==>
               !LeavesTitle(desired[i], TitleOf(Lookup(s.hints, ids[i])), s.line.Next().keepUnset)
    ensures var (s', ok) := PatchHintCall(s, ids[i], desired[i], MapPrereqs(desired[i].prerequisites, ids));
            && Progress(desired, s.hints, s'.hints)
            && Items(s'.hints) == Items(s.hints)
            && (ok ==> Wiring(desired, existing, i + 1, ids, s'.hints))
  {
    WiringIds(desired, existing, i, ids, s.hints);
    hide Progress, Wiring, LeavesTitle, Resolvable;
    ProgressReflexiveIf(desired, existing, i, ids, s.hints);
    var r := s.line.Next();
    if r.fault != Refused {
      WiringSound(desired, existing, i, ids, s.hints);
      PatchStep(desired, s.hints, i, r.keepUnset);
      ProgressSound(desired, s.hints, PatchHintCall(s, ids[i], desired[i],
                                                    MapPrereqs(desired[i].prerequisites, ids)).0.hints);
      WiringAfterPatch(desired, existing, ids, i, s.hints,
                       PatchHintCall(s, ids[i], desired[i], MapPrereqs(desired[i].prerequisites, ids)).0.hints);
    }
  }

  lemma {:induction false} WiringSound(desired: seq<HintSpec>, existing: seq<Hint>, i: nat, ids: seq<int>,
      hints: seq<Hint>)
    requires i <= |desired|
    ensures Wiring(desired, existing, i, ids, hints) ==> Sound(hints)
  {
  }

  lemma {:induction false} ProgressReflexiveIf(desired: seq<HintSpec>, existing: seq<Hint>, i: nat, ids: seq<int>,
      hints: seq<Hint>)
    requires i <= |desired|
    ensures Wiring(desired, existing, i, ids, hints) ==> Progress(desired, hints, hints)
  {
  }

  lemma {:induction false} OneMorePlaced(desired: seq<HintSpec>, existing: seq<Hint>, hints: seq<Hint>,
      ids: seq<int>, i: nat)
    requires i < |desired| == |ids| && Wiring(desired, existing, i, ids, hints)
    requires PlacedAt(desired, hints, i)
    ensures Wiring(desired, existing, i + 1, ids, hints)
  {
    hide PlacedAt, Sound, Assigned, AllCreated, AllNamed, StoredAs;
  }

  lemma {:induction false} SameRequirements(desired: seq<HintSpec>, existing: seq<Hint>, hints: seq<Hint>,
      id: int, j: nat)
    requires j < |desired| && Named(desired, existing, id, j) && StoredAs(desired, existing, hints, id, j)
    ensures ReqOf(Lookup(hints, id)) == ReqOf(Lookup(existing, id))
  {
    LookupMentions(existing, id, 0);
  }

  lemma {:induction false} SettledIsPlaced(desired: seq<HintSpec>, existing: seq<Hint>, hints: seq<Hint>,
      ids: seq<int>, i: nat)
    requires i < |desired| == |ids| && Resolvable(desired) && Wiring(desired, existing, i, ids, hints)
    requires SettledAt(desired, existing, ids, i)
    ensures Wiring(desired, existing, i + 1, ids, hints)
  {
    assert PlacedAt(desired, hints, i) by {
      WiringIds(desired, existing, i, ids, hints);
      SameRequirements(desired, existing, hints, ids[i], i);
    }
    OneMorePlaced(desired, existing, hints, ids, i);
  }

  lemma {:induction false} WiredAfter(desired: seq<HintSpec>, a: seq<Hint>, b: seq<Hint>, c: seq<Hint>, ok: bool)
    requires Items(b) == Items(a)
    ensures Progress(desired, a, b) && WiredWell(desired, b, c, ok) ==> WiredWell(desired, a, c, ok)
  {
    ProgressTransitive(desired, a, b, c);
  }

  lemma {:induction false} WiredAtEnd(desired: seq<HintSpec>, existing: seq<Hint>, ids: seq<int>, hints: seq<Hint>)
    requires Wiring(desired, existing, |desired|, ids, hints)
    ensures WiredWell(desired, hints, hints, true)
  {
    ProgressReflexive(desired, hints);
  }

  /** The patch of hint i gets the answer of its turn. */
  ghost predicate OnTurn(desired: seq<HintSpec>, existing: seq<Hint>, line: Line, i: nat, rest: Line)
    requires i <= |desired|
  {
    && Unlockable(Prereqs(desired)) && Resolvable(desired)
    && line.Leaves(PatchTurn(desired, existing, i), rest)
  }

  lemma {:induction false} TurnPasses(desired: seq<HintSpec>, existing: seq<Hint>, ids: seq<int>, line: Line,
      i: nat, rest: Line, w: Write)
    requires i < |desired| && OnTurn(desired, existing, line, i, rest)
    requires Sound(existing) && AllNamed(desired, existing, ids)
    ensures SettledAt(desired, existing, ids, i) ==> OnTurn(desired, existing, line, i + 1, rest)
    ensures !SettledAt(desired, existing, ids, i) && rest.Next().fault == Served ==>
              OnTurn(desired, existing, line, i + 1, rest.Sent(w))
  {
    hide Unlockable, NeedsPatch, SettledAt, AllNamed, Sound, Resolvable, Line.Leaves, CreateTurn;
    UnsettledIff(desired, existing, ids, i);
    NextIsAnswer(line, PatchTurn(desired, existing, i), rest, w);
    assert Patches(desired, existing, i + 1) ==
           Patches(desired, existing, i) + if NeedsPatch(desired, existing, i) then 1 else 0;
  }

  lemma {:induction false} WiringTurn(desired: seq<HintSpec>, existing: seq<Hint>, line: Line, ids: seq<int>,
      i: nat, s: HintState, w: Write)
    requires i < |desired|
    requires Wiring(desired, existing, i, ids, s.hints) && OnTurn(desired, existing, line, i, s.line)
    ensures SettledAt(desired, existing, ids, i) ==>
              Wiring(desired, existing, i + 1, ids, s.hints) && OnTurn(desired, existing, line, i + 1, s.line)
    ensures !SettledAt(desired, existing, ids, i) && s.line.Next().fault == Served ==>
              OnTurn(desired, existing, line, i + 1, s.line.Sent(w))
  {
    hide Unlockable, SettledAt, PatchTurn, Line.Leaves, PlacedUpTo, StoredFrom, AllNamed, Sound;
    TurnPasses(desired, existing, ids, line, i, s.line, w);
    if SettledAt(desired, existing, ids, i) {
      SettledIsPlaced(desired, existing, s.hints, ids, i);
    }
  }

  /** One patch in an unspoiled conversation. */
  lemma {:induction false} UnspoiledPatch(desired: seq<HintSpec>, existing: seq<Hint>, line: Line, ids: seq<int>,
      i: nat, s: HintState)
    requires i < |desired| == |ids| && Resolvable(desired)
    requires Wiring(desired, existing, i, ids, s.hints) && OnTurn(desired, existing, line, i, s.line)
    requires !SpoiledAt(desired, existing, line, i) && !SettledAt(desired, existing, ids, i)
    ensures var (s', ok) := PatchHintCall(s, ids[i], desired[i], MapPrereqs(desired[i].prerequisites, ids));
            && Progress(desired, s.hints, s'.hints) && WiredWell(desired, s.hints, s'.hints, false)
            && Items(s'.hints) == Items(s.hints)
            && (ok ==> Wiring(desired, existing, i + 1, ids, s'.hints))
            && (ok ==> OnTurn(desired, existing, line, i + 1, s'.line))
  {
    hide Progress, Wiring, Spoiled, SpoiledAt, SettledAt, Resolvable, Unlockable, PatchTurn, Line.Leaves, LeavesTitle;
    LeavesTitleIff(desired, existing, ids, i, s, line);
    PatchCall(desired, existing, ids, i, s);
    WiringTurn(desired, existing, line, ids, i, s, PatchHint(ids[i]));
  }

  lemma {:induction false} WirePhase(desired: seq<HintSpec>, existing: seq<Hint>, line: Line, ids: seq<int>,
      i: nat, s: HintState)
    requires i <= |desired| == |ids| && Resolvable(desired) && !Spoiled(desired, existing, line)
    ensures var (s', ok) := Wire(desired, existing, ids, i, s);
            Wiring(desired, existing, i, ids, s.hints) && OnTurn(desired, existing, line, i, s.line) ==>
              WiredWell(desired, s.hints, s'.hints, ok)
    decreases |desired| - i
  {
    hide PatchHintCall, Progress, Wiring, WiredWell, Items, Settled, Lookup, Spoiled, SpoiledAt, OnTurn;
    if Wiring(desired, existing, i, ids, s.hints) && OnTurn(desired, existing, line, i, s.line) {
      if i == |desired| {
        WiredAtEnd(desired, existing, ids, s.hints);
      } else {
        var want := MapPrereqs(desired[i].prerequisites, ids);
        if SettledAt(desired, existing, ids, i) {
          WiringTurn(desired, existing, line, ids, i, s, PostHint);
          WirePhase(desired, existing, line, ids, i + 1, s);
        } else {
          SpoiledAtOne(desired, existing, line, i, s.line);
          UnspoiledPatch(desired, existing, line, ids, i, s);
          var (s', ok) := PatchHintCall(s, ids[i], desired[i], want);
          if ok {
            WirePhase(desired, existing, line, ids, i + 1, s');
            var (s'', ok') := Wire(desired, existing, ids, i + 1, s');
            WiredAfter(desired, s.hints, s'.hints, s''.hints, ok');
          }
        }
      }
    }
  }

  // ---------- deletion ----------

  /** The ids still to delete are the unwanted ones, each once. */
  ghost predicate Remaining(desired: seq<HintSpec>, hints: seq<Hint>, deletes: seq<int>) {
    forall id :: multiset(deletes)[id] <= 1 && (id in multiset(deletes) <==> id in Unwanted(desired, hints))
  }

  lemma {:induction false} OrderIsRemaining(desired: seq<HintSpec>, hints: seq<Hint>, deletes: seq<int>)
    requires UniqueIds(Items(hints)) && IsDeleteOrder(desired, hints, deletes)
    ensures Remaining(desired, hints, deletes)
  {
    forall id ensures multiset(deletes)[id] <= 1 && (id in multiset(deletes) <==> id in Unwanted(desired, hints)) {
      SurplusOnce(Wanted(desired), Items(hints), id);
      assert id in Unwanted(desired, hints) <==> id in multiset(Unwanted(desired, hints));
    }
  }

  lemma {:induction false} NothingRemaining(desired: seq<HintSpec>, hints: seq<Hint>, none: seq<int>)
    requires none == []
    ensures Remaining(desired, hints, none) ==> Unwanted(desired, hints) == []
  {
    assert forall id :: id !in multiset(none);
    if Unwanted(desired, hints) != [] {
      var x := SomeElement(Unwanted(desired, hints));
    }
  }

  ghost predicate Deleting(desired: seq<HintSpec>, hints: seq<Hint>, deletes: seq<int>) {
    Sound(hints) && InPlace(desired, hints) && Remaining(desired, hints, deletes)
  }

  lemma {:induction false} DeleteFirst(desired: seq<HintSpec>, hints: seq<Hint>, deletes: seq<int>)
    requires deletes != [] && Deleting(desired, hints, deletes)
    ensures var b := DropHint(hints, deletes[0]);
            Progress(desired, hints, b) && Progress(desired, hints, hints) && Deleting(desired, b, deletes[1..])
  {
    var id, rest := deletes[0], deletes[1..];
    assert deletes == [id] + rest;
    assert multiset(deletes) == multiset{id} + multiset(rest);
    assert id in multiset(deletes);
    DeleteStep(desired, hints, id);
    ProgressReflexive(desired, hints);
    forall x ensures multiset(rest)[x] <= 1
                  && (x in multiset(rest) <==> x in Unwanted(desired, DropHint(hints, id))) {
      assert multiset(deletes)[x] <= 1;
    }
  }

  lemma {:induction false} DeletesDone(desired: seq<HintSpec>, hints: seq<Hint>, deletes: seq<int>)
    ensures Deleting(desired, hints, deletes) ==> Progress(desired, hints, hints) && InPlace(desired, hints)
    ensures Deleting(desired, hints, deletes) && deletes == [] ==> Unwanted(desired, hints) == []
  {
    if Deleting(desired, hints, deletes) {
      ProgressReflexive(desired, hints);
      if deletes == [] {
        NothingRemaining(desired, hints, deletes);
      }
    }
  }

  lemma {:induction false} DeletePhase(desired: seq<HintSpec>, deletes: seq<int>, s: HintState)
    ensures var (s', ok) := DeleteAll(deletes, s);
            Deleting(desired, s.hints, deletes) ==>
              && Progress(desired, s.hints, s'.hints)
              && InPlace(desired, s'.hints)
              && (ok ==> Unwanted(desired, s'.hints) == [])
    decreases |deletes|
  {
    hide Progress, InPlace, Deleting;
    if Deleting(desired, s.hints, deletes) {
      DeletesDone(desired, s.hints, deletes);
      if deletes != [] {
        DeleteFirst(desired, s.hints, deletes);
        var (s', ok) := DeleteHintCall(s, deletes[0]);
        DeletesDone(desired, s'.hints, deletes[1..]);
        if ok {
          DeletePhase(desired, deletes[1..], s');
          ProgressTransitive(desired, s.hints, s'.hints, DeleteAll(deletes[1..], s').0.hints);
        }
      }
    }
  }
}

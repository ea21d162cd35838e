/** Exactly when a hint synchronisation keeps what it promises, whichever calls fail:
    unless the server keeps a title that the patch of a mis-titled hint does not send. */
module HintExact {
  import opened Ctfd
  import opened Keys
  import opened Matching
  import opened PrereqGraph
  import opened HintSync
  import opened HintProgress
  import opened HintPhases

  // ---------- unspoiled synchronisations ----------

  lemma {:induction false} ListingStarts(desired: seq<HintSpec>, s: HintState)
    requires Sound(s.hints) && ListHints(s).1
    ensures Creating(desired, s.hints, 0, Ids(desired, s.hints), ListHints(s).0.hints)
    ensures s.line.Leaves(CreateTurn(desired, s.hints, 0), ListHints(s).0.line)
    ensures forall j :: 0 <= j < |desired| ==> Ids(desired, s.hints)[j] == IdOf(desired, s.hints, j)
  {
    IdsAre(desired, s.hints);
    CreatingStarts(desired, s.hints, 0, Ids(desired, s.hints));
    ReadsLeave(s.line, 0, s.line, 1 + |s.hints|);
  }

  lemma {:induction false} FirstTurn(desired: seq<HintSpec>, existing: seq<Hint>, line: Line, rest: Line)
    requires Unlockable(Prereqs(desired)) && Resolvable(desired)
    ensures line.Leaves(CreateTurn(desired, existing, |desired|), rest) ==> OnTurn(desired, existing, line, 0, rest)
  {
    hide Unlockable, Resolvable, Line.Leaves, CreateTurn, NeedsPatch;
    assert PatchTurn(desired, existing, 0) == CreateTurn(desired, existing, |desired|);
  }

  /** Listing and creation. */
  lemma {:induction false} CreatedFromListing(desired: seq<HintSpec>, taken: set<int>, s: HintState)
    requires Unlockable(Prereqs(desired)) && Resolvable(desired) && Sound(s.hints) && ListHints(s).1
    ensures var c := CreateMissing(desired, 0, Ids(desired, s.hints), taken, ListHints(s).0);
            && CreatedWell(desired, s.hints, c)
            && (c.ok ==> OnTurn(desired, s.hints, s.line, 0, c.state.line))
            && (s.line.Serves(CreateTurn(desired, s.hints, |desired|)) ==> c.ok)
  {
    hide Unlockable, CreatedWell, Creating, Line.Leaves, Line.Serves, Resolvable, Sound, OnTurn, CreateTurn, IdOf;
    hide Ids, ListHints;
    ListingStarts(desired, s);
    CreatePhase(desired, s.hints, 0, Ids(desired, s.hints), taken, ListHints(s).0);
    CreateLeaves(desired, s.hints, 0, Ids(desired, s.hints), taken, ListHints(s).0, s.line);
    FirstTurn(desired, s.hints, s.line,
              CreateMissing(desired, 0, Ids(desired, s.hints), taken, ListHints(s).0).state.line);
  }

  lemma {:induction false} ProgressHasUnwanted(desired: seq<HintSpec>, existing: seq<Hint>, ids: seq<int>,
      a: seq<Hint>, b: seq<Hint>, deletes: seq<int>)
    requires Creating(desired, existing, |desired|, ids, a) && WiredWell(desired, a, b, true)
    requires IsDeleteOrder(desired, existing, deletes)
    ensures Deleting(desired, b, deletes)
  {
    SameItems(desired, a, b);
    OrderIsRemaining(desired, b, deletes);
  }

  lemma {:induction false} UpToDateIs(desired: seq<HintSpec>, hints: seq<Hint>)
    ensures Unlockable(Prereqs(desired)) && Unwanted(desired, hints) == [] && InPlace(desired, hints) ==>
              HintsUpToDate(desired, hints)
  {
  }

  lemma {:induction false} WiredIsProgress(desired: seq<HintSpec>, a: seq<Hint>, b: seq<Hint>, ok: bool)
    ensures WiredWell(desired, a, b, ok) ==> Progress(desired, a, b)
  {
  }

  /** The rest of an unspoiled synchronisation, once every hint exists. */
  lemma {:induction false} FinishUnspoiled(desired: seq<HintSpec>, existing: seq<Hint>, line: Line, ids: seq<int>,
      s: HintState, deletes: seq<int>)
    requires Resolvable(desired) && |ids| == |desired| && Sound(existing)
    requires Creating(desired, existing, |desired|, ids, s.hints) && OnTurn(desired, existing, line, 0, s.line)
    requires !Spoiled(desired, existing, line) && IsDeleteOrder(desired, existing, deletes)
    ensures var (s', ok) := WireAndDelete(desired, existing, ids, s, deletes);
            Progress(desired, s.hints, s'.hints) && (ok ==> HintsUpToDate(desired, s'.hints))
  {
    hide Progress, Spoiled, Creating, Unlockable, WiredWell, Deleting, HintsUpToDate, InPlace, Unwanted, Wiring;
    CreatedIsWiring(desired, existing, ids, s.hints);
    WirePhase(desired, existing, line, ids, 0, s);
    var (s1, wired) := Wire(desired, existing, ids, 0, s);
    WiredIsProgress(desired, s.hints, s1.hints, wired);
    if wired {
      ProgressHasUnwanted(desired, existing, ids, s.hints, s1.hints, deletes);
      DeletePhase(desired, deletes, s1);
      var s2 := DeleteAll(deletes, s1).0;
      ProgressTransitive(desired, s.hints, s1.hints, s2.hints);
      UpToDateIs(desired, s2.hints);
    }
  }

  lemma {:induction false} SyncUnspoiled(desired: seq<HintSpec>, taken: set<int>, s: HintState, deletes: seq<int>)
    requires Sound(s.hints) && IsDeleteOrder(desired, s.hints, deletes)
    requires !Spoiled(desired, s.hints, s.line)
    ensures var (s', ok) := SyncHints(desired, taken, s, deletes);
            Progress(desired, s.hints, s'.hints) && (ok ==> HintsUpToDate(desired, s'.hints))
  {
    ProgressReflexive(desired, s.hints);
    if Unlockable(Prereqs(desired)) {
      ValidMeansResolvable(desired);
      if ListHints(s).1 {
        hide Progress, Spoiled, Creating, Unlockable, HintsUpToDate, WireAndDelete, Resolvable;
        var c := CreateMissing(desired, 0, Ids(desired, s.hints), taken, ListHints(s).0);
        CreatedFromListing(desired, taken, s);
        if c.ok {
          FinishUnspoiled(desired, s.hints, s.line, c.ids, c.state, deletes);
          ProgressTransitive(desired, s.hints, c.state.hints,
                             WireAndDelete(desired, s.hints, c.ids, c.state, deletes).0.hints);
        }
      }
    }
  }

  // ---------- spoiled synchronisations ----------

  /** The length of the key that is stored under an id. */
  ghost function KeyLength(hints: seq<Hint>, id: int): int {
    match Lookup(hints, id)
    case None => -1
    case Some(h) => |KeyOf(h)|
  }

  lemma {:induction false} BoundLength(desired: seq<HintSpec>, hints: seq<Hint>, j: nat)
    requires j < |desired| && Sound(hints) && IdOf(desired, hints, j) >= 0
    ensures KeyLength(hints, IdOf(desired, hints, j)) == |WantedKey(desired[j])|
    ensures HasId(hints, IdOf(desired, hints, j))
  {
    var p := PlaceOf(desired, hints, j);
  }

  /** A patch leaves the wanted key, or a longer one. */
  lemma {:induction false} PatchedLength(h: Hint, d: HintSpec, want: seq<int>, keep: bool)
    ensures |KeyOf(Patched(h, d, want, keep))| >= |WantedKey(d)|
    ensures LeavesTitle(d, Deref(h.title), keep) ==> |KeyOf(Patched(h, d, want, keep))| > |WantedKey(d)|
  {
  }

  lemma {:induction false} PatchLength(hints: seq<Hint>, x: int, d: HintSpec, want: seq<int>, keep: bool, id: int)
    ensures var b := PatchWhere(hints, x, d, want, keep);
            && (id != x ==> KeyLength(b, id) == KeyLength(hints, id))
            && (id == x && KeyLength(hints, id) >= 0 ==> KeyLength(b, id) >= |WantedKey(d)|)
            && (id == x && KeyLength(hints, id) >= 0 && LeavesTitle(d, TitleOf(Lookup(hints, id)), keep) ==>
                  KeyLength(b, id) > |WantedKey(d)|)
  {
    hide Patched, LeavesTitle, PatchWhere;
    LookupPatch(hints, x, d, want, keep, id);
    if Lookup(hints, id).Some? {
      PatchedLength(Lookup(hints, id).value, d, want, keep);
    }
  }

  lemma {:induction false} PatchKeepsUnique(hints: seq<Hint>, x: int, d: HintSpec, want: seq<int>, keep: bool)
    requires Sound(hints)
    ensures Sound(PatchWhere(hints, x, d, want, keep))
  {
    var b := PatchWhere(hints, x, d, want, keep);
    forall p | 0 <= p < |b| ensures Items(b)[p].id == Items(hints)[p].id {
    }
  }

  /** Under each id there is a key at least as long as the wanted one. */
  ghost predicate LongEnough(desired: seq<HintSpec>, hints: seq<Hint>, ids: seq<int>) {
    && |ids| == |desired| && Distinct(ids) && Sound(hints)
    && forall j :: 0 <= j < |desired| ==> KeyLength(hints, ids[j]) >= |WantedKey(desired[j])|
  }

  ghost predicate TooLong(desired: seq<HintSpec>, hints: seq<Hint>, ids: seq<int>, j: nat)
    requires j < |desired| == |ids|
  {
    KeyLength(hints, ids[j]) > |WantedKey(desired[j])|
  }

  lemma {:induction false} PatchStaysLong(desired: seq<HintSpec>, ids: seq<int>, i: nat, hints: seq<Hint>,
      want: seq<int>, keep: bool, j: nat)
    requires i < |desired| == |ids| && j < |desired| && LongEnough(desired, hints, ids)
    ensures var b := PatchWhere(hints, ids[i], desired[i], want, keep);
            && LongEnough(desired, b, ids)
            && (i != j && TooLong(desired, hints, ids, j) ==> TooLong(desired, b, ids, j))
            && (LeavesTitle(desired[i], TitleOf(Lookup(hints, ids[i])), keep) ==> TooLong(desired, b, ids, i))
  {
    var b := PatchWhere(hints, ids[i], desired[i], want, keep);
    PatchKeepsUnique(hints, ids[i], desired[i], want, keep);
    hide KeyLength, PatchWhere, WantedKey, LeavesTitle, TitleOf, Sound;
    forall k | 0 <= k < |desired|
      ensures KeyLength(b, ids[k]) >= |WantedKey(desired[k])|
      ensures k != i ==> KeyLength(b, ids[k]) == KeyLength(hints, ids[k])
    {
      PatchLength(hints, ids[i], desired[i], want, keep, ids[k]);
    }
    PatchLength(hints, ids[i], desired[i], want, keep, ids[i]);
  }

  /** A key that became too long stays so for the rest of the loop. */
  lemma {:induction false} WireStaysLong(desired: seq<HintSpec>, existing: seq<Hint>, ids: seq<int>, i: nat,
      s: HintState, j: nat)
    requires i <= |desired| == |ids| && Resolvable(desired) && j < i
    ensures var s' := Wire(desired, existing, ids, i, s).0;
            LongEnough(desired, s.hints, ids) && TooLong(desired, s.hints, ids, j) ==>
              LongEnough(desired, s'.hints, ids) && TooLong(desired, s'.hints, ids, j)
    decreases |desired| - i
  {
    hide LongEnough, TooLong, Settled, Lookup, PatchWhere, LeavesTitle;
    if i < |desired| && LongEnough(desired, s.hints, ids) && TooLong(desired, s.hints, ids, j) {
      var want := MapPrereqs(desired[i].prerequisites, ids);
      if Settled(desired[i], want, ReqOf(Lookup(existing, ids[i]))) {
        WireStaysLong(desired, existing, ids, i + 1, s, j);
      } else {
        PatchStaysLong(desired, ids, i, s.hints, want, s.line.Next().keepUnset, j);
        var (s', ok) := PatchHintCall(s, ids[i], desired[i], want);
        if ok {
          WireStaysLong(desired, existing, ids, i + 1, s', j);
        }
      }
    }
  }

  lemma {:induction false} WiringIsLong(desired: seq<HintSpec>, existing: seq<Hint>, i: nat, ids: seq<int>,
      hints: seq<Hint>)
    requires i <= |desired| && Wiring(desired, existing, i, ids, hints)
    ensures LongEnough(desired, hints, ids)
  {
    WiringIds(desired, existing, i, ids, hints);
    hide KeyLength, Lookup, PlacedUpTo, StoredFrom, AllNamed, WantedKey;
    forall j | 0 <= j < |desired| ensures KeyLength(hints, ids[j]) >= |WantedKey(desired[j])| {
      BoundLength(desired, hints, j);
    }
    forall j, k | 0 <= j < k < |ids| ensures ids[j] != ids[k] {
      BindingsDistinct(Wanted(desired), Items(hints), j, k);
    }
  }

  lemma {:induction false} PatchesGrow(desired: seq<HintSpec>, hints: seq<Hint>, i: nat, n: nat)
    requires i <= n <= |desired| && Resolvable(desired)
    ensures Patches(desired, hints, i) <= Patches(desired, hints, n)
    ensures i < n && NeedsPatch(desired, hints, i) ==> Patches(desired, hints, i) < Patches(desired, hints, n)
    decreases n
  {
    hide NeedsPatch;
    if i < n {
      PatchesGrow(desired, hints, i, n - 1);
    }
  }

  /** An earlier patch is served if a later one is to have its turn. */
  lemma {:induction false} EarlierIsServed(desired: seq<HintSpec>, existing: seq<Hint>, ids: seq<int>, line: Line,
      i: nat, j: nat, rest: Line)
    requires i < j < |desired| && OnTurn(desired, existing, line, i, rest)
    requires Sound(existing) && AllNamed(desired, existing, ids) && !SettledAt(desired, existing, ids, i)
    requires SpoiledAt(desired, existing, line, j)
    ensures rest.Next().fault == Served
  {
    hide Unlockable, NeedsPatch, MisTitled, SettledAt, AllNamed, Sound, Resolvable, Line.Leaves, CreateTurn;
    UnsettledIff(desired, existing, ids, i);
    PatchesGrow(desired, existing, i, j);
    NextIsAnswer(line, PatchTurn(desired, existing, i), rest, PostHint);
  }

  ghost predicate FirstSpoiled(desired: seq<HintSpec>, existing: seq<Hint>, line: Line, j: nat)
    requires j < |desired| && Resolvable(desired)
  {
    && SpoiledAt(desired, existing, line, j)
    && forall i :: 0 <= i < j ==> !SpoiledAt(desired, existing, line, i)
  }

  lemma {:induction false} FindFirst(desired: seq<HintSpec>, existing: seq<Hint>, line: Line, i: nat) returns (j: nat)
    requires i < |desired| && Resolvable(desired) && SpoiledAt(desired, existing, line, i)
    ensures j <= i && FirstSpoiled(desired, existing, line, j)
  {
    hide SpoiledAt;
    if k :| 0 <= k < i && SpoiledAt(desired, existing, line, k) {
      j := FindFirst(desired, existing, line, k);
    } else {
      j := i;
    }
  }

  lemma {:induction false} PatchSpoils(desired: seq<HintSpec>, existing: seq<Hint>, line: Line, ids: seq<int>,
      s: HintState, j: nat)
    requires j < |desired| == |ids| && Resolvable(desired) && SpoiledAt(desired, existing, line, j)
    requires Wiring(desired, existing, j, ids, s.hints) && OnTurn(desired, existing, line, j, s.line)
    ensures !SettledAt(desired, existing, ids, j)
    ensures var s' := PatchHintCall(s, ids[j], desired[j], MapPrereqs(desired[j].prerequisites, ids)).0;
            LongEnough(desired, s'.hints, ids) && TooLong(desired, s'.hints, ids, j)
  {
    assert !SettledAt(desired, existing, ids, j) by {
      UnsettledIff(desired, existing, ids, j);
    }
    WiringIsLong(desired, existing, j, ids, s.hints);
    hide SpoiledAt, Wiring, LeavesTitle, LongEnough, TooLong, PatchWhere, Lookup, SettledAt, NeedsPatch;
    LeavesTitleIff(desired, existing, ids, j, s, line);
    PatchStaysLong(desired, ids, j, s.hints, MapPrereqs(desired[j].prerequisites, ids), s.line.Next().keepUnset, j);
  }

  /** The first spoiling patch makes a key too long. */
  lemma {:induction false} WireSpoils(desired: seq<HintSpec>, existing: seq<Hint>, line: Line, ids: seq<int>,
      i: nat, s: HintState, j: nat)
    requires i <= j < |desired| == |ids| && Resolvable(desired) && FirstSpoiled(desired, existing, line, j)
    ensures var s' := Wire(desired, existing, ids, i, s).0;
            Wiring(desired, existing, i, ids, s.hints) && OnTurn(desired, existing, line, i, s.line) ==>
              LongEnough(desired, s'.hints, ids) && TooLong(desired, s'.hints, ids, j)
    decreases j - i
  {
    hide PatchHintCall, Wiring, OnTurn, SpoiledAt, LongEnough, TooLong, Settled, Lookup, Progress;
    if Wiring(desired, existing, i, ids, s.hints) && OnTurn(desired, existing, line, i, s.line) {
      var want := MapPrereqs(desired[i].prerequisites, ids);
      if i == j {
        PatchSpoils(desired, existing, line, ids, s, j);
        var (s', ok) := PatchHintCall(s, ids[i], desired[i], want);
        if ok {
          WireStaysLong(desired, existing, ids, i + 1, s', j);
        }
      } else if SettledAt(desired, existing, ids, i) {
        WiringTurn(desired, existing, line, ids, i, s, PostHint);
        WireSpoils(desired, existing, line, ids, i + 1, s, j);
      } else {
        WiringServes(desired, existing, line, ids, i, s, j);
        UnspoiledPatch(desired, existing, line, ids, i, s);
        WireSpoils(desired, existing, line, ids, i + 1, PatchHintCall(s, ids[i], desired[i], want).0, j);
      }
    }
  }

  lemma {:induction false} WiringServes(desired: seq<HintSpec>, existing: seq<Hint>, line: Line, ids: seq<int>,
      i: nat, s: HintState, j: nat)
    requires i < j < |desired| == |ids| && Resolvable(desired) && SpoiledAt(desired, existing, line, j)
    requires Wiring(desired, existing, i, ids, s.hints) && OnTurn(desired, existing, line, i, s.line)
    requires !SettledAt(desired, existing, ids, i)
    ensures PatchHintCall(s, ids[i], desired[i], MapPrereqs(desired[i].prerequisites, ids)).1
  {
    EarlierIsServed(desired, existing, ids, line, i, j, s.line);
  }

  lemma {:induction false} DropLength(desired: seq<HintSpec>, hints: seq<Hint>, ids: seq<int>, x: int, j: nat)
    requires LongEnough(desired, hints, ids) && x !in ids && j < |desired|
    ensures LongEnough(desired, DropHint(hints, x), ids)
    ensures TooLong(desired, hints, ids, j) ==> TooLong(desired, DropHint(hints, x), ids, j)
  {
    var b := DropHint(hints, x);
    ItemsDrop(hints, x);
    UniqueWithout(Items(hints), x);
    hide WantedKey, DropHint, Items;
    forall k | 0 <= k < |desired| ensures KeyLength(b, ids[k]) == KeyLength(hints, ids[k]) {
      LookupDrop(hints, x, ids[k]);
    }
  }

  lemma {:induction false} DeleteStaysLong(desired: seq<HintSpec>, ids: seq<int>, deletes: seq<int>, s: HintState,
      j: nat)
    requires j < |desired| == |ids| && forall x :: x in deletes ==> x !in ids
    ensures var s' := DeleteAll(deletes, s).0;
            LongEnough(desired, s.hints, ids) && TooLong(desired, s.hints, ids, j) ==>
              LongEnough(desired, s'.hints, ids) && TooLong(desired, s'.hints, ids, j)
    decreases |deletes|
  {
    hide LongEnough, TooLong, DropHint;
    if deletes != [] && LongEnough(desired, s.hints, ids) && TooLong(desired, s.hints, ids, j) {
      DropLength(desired, s.hints, ids, deletes[0], j);
      var (s', ok) := DeleteHintCall(s, deletes[0]);
      if ok {
        DeleteStaysLong(desired, ids, deletes[1..], s', j);
      }
    }
  }

  lemma {:induction false} DeletesAreOthers(desired: seq<HintSpec>, existing: seq<Hint>, ids: seq<int>,
      hints: seq<Hint>, deletes: seq<int>, x: int)
    requires Creating(desired, existing, |desired|, ids, hints)
    requires IsDeleteOrder(desired, existing, deletes) && x in deletes
    ensures x !in ids
  {
    assert x in multiset(deletes);
    assert x in Unwanted(desired, hints);
    SurplusIsUnbound(Wanted(desired), Items(hints), x);
    forall j | 0 <= j < |ids| ensures ids[j] != x {
      assert ids[j] == IdOf(desired, hints, j);
    }
  }

  lemma {:induction false} FinishSpoils(desired: seq<HintSpec>, existing: seq<Hint>, line: Line, ids: seq<int>,
      s: HintState, deletes: seq<int>, j: nat)
    requires Resolvable(desired) && j < |ids| == |desired| && Sound(existing)
    requires Creating(desired, existing, |desired|, ids, s.hints) && OnTurn(desired, existing, line, 0, s.line)
    requires FirstSpoiled(desired, existing, line, j) && IsDeleteOrder(desired, existing, deletes)
    ensures var s' := WireAndDelete(desired, existing, ids, s, deletes).0;
            LongEnough(desired, s'.hints, ids) && TooLong(desired, s'.hints, ids, j)
  {
    hide FirstSpoiled, Creating, Unlockable, Wiring, LongEnough, TooLong;
    CreatedIsWiring(desired, existing, ids, s.hints);
    WireSpoils(desired, existing, line, ids, 0, s, j);
    forall x | x in deletes ensures x !in ids {
      DeletesAreOthers(desired, existing, ids, s.hints, deletes, x);
    }
    DeleteStaysLong(desired, ids, deletes, Wire(desired, existing, ids, 0, s).0, j);
  }

  /** A patch has its turn only after the listing and every creation. */
  lemma {:induction false} SpoiledIsCreated(desired: seq<HintSpec>, taken: set<int>, s: HintState, j: nat)
    requires Sound(s.hints) && Unlockable(Prereqs(desired)) && Resolvable(desired)
    requires j < |desired| && SpoiledAt(desired, s.hints, s.line, j)
    ensures ListHints(s).1
    ensures var c := CreateMissing(desired, 0, Ids(desired, s.hints), taken, ListHints(s).0);
            && c.ok && |c.ids| == |desired| && c.ids[j] == IdOf(desired, s.hints, j) >= 0
            && Creating(desired, s.hints, |desired|, c.ids, c.state.hints)
            && OnTurn(desired, s.hints, s.line, 0, c.state.line)
  {
    hide Unlockable, IdOf, Progress, NeedsPatch, OnTurn, CreateMissing;
    ReadsLeave(s.line, 0, s.line, 1 + |s.hints|);
    CreatedFromListing(desired, taken, s);
    var c := CreateMissing(desired, 0, Ids(desired, s.hints), taken, ListHints(s).0);
    ProgressKeepsId(desired, s.hints, c.state.hints, j);
  }

  /** A spoiled synchronisation leaves some listed hint with a key too long, and none
      with a key too short. */
  lemma {:induction false} SyncSpoils(desired: seq<HintSpec>, taken: set<int>, s: HintState, deletes: seq<int>)
    returns (ids: seq<int>, j: nat)
    requires Sound(s.hints) && IsDeleteOrder(desired, s.hints, deletes)
    requires Spoiled(desired, s.hints, s.line)
    ensures j < |desired| == |ids| && ids[j] == IdOf(desired, s.hints, j) >= 0
    ensures var s' := SyncHints(desired, taken, s, deletes).0;
            LongEnough(desired, s'.hints, ids) && TooLong(desired, s'.hints, ids, j)
  {
    hide Creating, Unlockable, LongEnough, TooLong, WireAndDelete, IdOf, SpoiledAt, CreateMissing, ListHints, OnTurn;
    var i :| 0 <= i < |desired| && SpoiledAt(desired, s.hints, s.line, i);
    j := FindFirst(desired, s.hints, s.line, i);
    SpoiledIsCreated(desired, taken, s, j);
    var c := CreateMissing(desired, 0, Ids(desired, s.hints), taken, ListHints(s).0);
    ids := c.ids;
    FinishSpoils(desired, s.hints, s.line, ids, c.state, deletes, j);
  }

  // ---------- keys that are too long do not add up ----------

  ghost function TotalLength(hints: seq<Hint>, ids: seq<int>): int {
    if ids == [] then 0 else TotalLength(hints, ids[..|ids| - 1]) + KeyLength(hints, ids[|ids| - 1])
  }

  lemma {:induction false} TotalAppend(hints: seq<Hint>, ids: seq<int>, id: int)
    ensures TotalLength(hints, ids + [id]) == TotalLength(hints, ids) + KeyLength(hints, id)
  {
    hide KeyLength;
    assert (ids + [id])[..|ids|] == ids;
  }

  function WithoutAt(ids: seq<int>, q: nat): seq<int>
    requires q < |ids|
  {
    ids[..q] + ids[q + 1..]
  }

  lemma {:induction false} WithoutAtInit(ids: seq<int>, q: nat)
    requires q < |ids| - 1
    ensures WithoutAt(ids, q) == WithoutAt(ids[..|ids| - 1], q) + [ids[|ids| - 1]]
  {
  }

  lemma {:induction false} TotalWithout(hints: seq<Hint>, ids: seq<int>, q: nat)
    requires q < |ids|
    ensures TotalLength(hints, ids) == TotalLength(hints, WithoutAt(ids, q)) + KeyLength(hints, ids[q])
  {
    var init, last := ids[..|ids| - 1], ids[|ids| - 1];
    if q < |init| {
      hide KeyLength, WithoutAt;
      TotalWithout(hints, init, q);
      WithoutAtInit(ids, q);
      TotalAppend(hints, WithoutAt(init, q), last);
    } else {
      assert WithoutAt(ids, q) == init;
    }
  }

  lemma {:induction false} BagWithout(ids: seq<int>, q: nat)
    requires q < |ids|
    ensures multiset(WithoutAt(ids, q)) == multiset(ids) - multiset{ids[q]}
  {
    assert ids == ids[..q] + [ids[q]] + ids[q + 1..];
  }

  lemma {:induction false} TotalOfBag(hints: seq<Hint>, xs: seq<int>, ys: seq<int>)
    requires multiset(xs) == multiset(ys)
    ensures TotalLength(hints, xs) == TotalLength(hints, ys)
  {
    hide KeyLength;
    if xs == [] {
      assert |ys| == |multiset(ys)| == 0;
    } else {
      var n := |xs| - 1;
      assert xs[n] in multiset(ys);
      var q :| 0 <= q < |ys| && ys[q] == xs[n];
      BagWithout(xs, n);
      BagWithout(ys, q);
      assert WithoutAt(xs, n) == xs[..n];
      TotalWithout(hints, ys, q);
      TotalOfBag(hints, xs[..n], WithoutAt(ys, q));
    }
  }

  ghost function WantedLength(desired: seq<HintSpec>): nat {
    if desired == [] then 0
    else WantedLength(desired[..|desired| - 1]) + |WantedKey(desired[|desired| - 1])|
  }

  lemma {:induction false} TotalAtLeast(desired: seq<HintSpec>, hints: seq<Hint>, ids: seq<int>)
    requires |ids| == |desired| && forall j :: 0 <= j < |ids| ==> KeyLength(hints, ids[j]) >= |WantedKey(desired[j])|
    ensures TotalLength(hints, ids) >= WantedLength(desired)
    ensures (exists j :: 0 <= j < |ids| && TooLong(desired, hints, ids, j)) ==>
              TotalLength(hints, ids) > WantedLength(desired)
  {
    hide KeyLength, WantedKey;
    if ids != [] {
      var n := |ids| - 1;
      TotalAtLeast(desired[..n], hints, ids[..n]);
      if j :| 0 <= j < n && TooLong(desired, hints, ids, j) {
        assert TooLong(desired[..n], hints, ids[..n], j);
      }
    }
  }

  lemma {:induction false} TotalExact(desired: seq<HintSpec>, hints: seq<Hint>, ids: seq<int>)
    requires |ids| == |desired| && forall j :: 0 <= j < |ids| ==> KeyLength(hints, ids[j]) == |WantedKey(desired[j])|
    ensures TotalLength(hints, ids) == WantedLength(desired)
  {
    hide KeyLength, WantedKey;
    if ids != [] {
      var n := |ids| - 1;
      forall j | 0 <= j < n ensures KeyLength(hints, ids[..n][j]) == |WantedKey(desired[..n][j])| {
        assert ids[..n][j] == ids[j] && desired[..n][j] == desired[j];
      }
      TotalExact(desired[..n], hints, ids[..n]);
    }
  }

  lemma {:induction false} DistinctBag(ids: seq<int>, x: int)
    requires Distinct(ids)
    ensures multiset(ids)[x] == if x in ids then 1 else 0
  {
    if ids != [] {
      var init, last := ids[..|ids| - 1], ids[|ids| - 1];
      DistinctBag(init, x);
      assert ids == init + [last];
      assert last !in init;
    }
  }

  /** As many different ids as there are elements: the same bag. */
  lemma {:induction false} FillsBag(xs: seq<int>, ys: seq<int>)
    requires Distinct(xs) && |xs| == |ys| && forall x :: x in xs ==> x in ys
    ensures multiset(xs) == multiset(ys)
  {
    forall x ensures multiset(xs)[x] <= multiset(ys)[x] {
      DistinctBag(xs, x);
      assert x in ys ==> x in multiset(ys);
    }
    var rest := multiset(ys) - multiset(xs);
    assert multiset(ys) == multiset(xs) + rest;
    assert |rest| == 0;
  }

  lemma {:induction false} LookupLists(hints: seq<Hint>, id: int)
    requires Lookup(hints, id).Some?
    ensures HasId(hints, id)
  {
    var p := LookupSource(hints, id);
    assert Items(hints)[p].id == id;
  }

  /** What is stored under an id of its own is planned for some index, if nothing is
      left over. */
  lemma {:induction false} NothingLeftOver(desired: seq<HintSpec>, hints: seq<Hint>, id: int)
    requires Sound(hints) && Unwanted(desired, hints) == [] && Lookup(hints, id).Some?
    ensures id in Ids(desired, hints)
  {
    LookupLists(hints, id);
    SurplusIsUnbound(Wanted(desired), Items(hints), id);
    var i :| 0 <= i < |desired| && Bind(Wanted(desired), Items(hints), i) == id;
    assert Ids(desired, hints)[i] == id;
  }

  lemma {:induction false} UpToDateTotals(desired: seq<HintSpec>, hints: seq<Hint>)
    requires Sound(hints) && HintsUpToDate(desired, hints)
    ensures TotalLength(hints, Ids(desired, hints)) == WantedLength(desired)
  {
    var ids := Ids(desired, hints);
    forall j | 0 <= j < |desired| ensures KeyLength(hints, ids[j]) == |WantedKey(desired[j])| {
      assert PlacedAt(desired, hints, j);
      assert ids[j] == IdOf(desired, hints, j);
      BoundLength(desired, hints, j);
    }
    TotalExact(desired, hints, ids);
  }

  /** Hints are not up to date if one of them has a key too long and none too short. */
  lemma {:induction false} TooLongTells(desired: seq<HintSpec>, hints: seq<Hint>, ids: seq<int>, j: nat)
    requires j < |desired| == |ids|
    requires LongEnough(desired, hints, ids) && TooLong(desired, hints, ids, j)
    ensures IdOf(desired, hints, j) != ids[j] || ids[j] < 0
    ensures !HintsUpToDate(desired, hints)
  {
    if IdOf(desired, hints, j) == ids[j] >= 0 {
      BoundLength(desired, hints, j);
    }
    if HintsUpToDate(desired, hints) {
      UpToDateTotals(desired, hints);
      forall x | x in ids ensures x in Ids(desired, hints) {
        var k :| 0 <= k < |ids| && ids[k] == x;
        assert KeyLength(hints, ids[k]) >= 0;
        NothingLeftOver(desired, hints, x);
      }
      FillsBag(ids, Ids(desired, hints));
      TotalOfBag(hints, ids, Ids(desired, hints));
      TotalAtLeast(desired, hints, ids);
    }
  }

  // ---------- exactly ----------

  /** Whatever calls fail, a synchronisation is progress exactly if it is not spoiled;
      and its success means that Observe will find the hints up to date, exactly if it
      is not spoiled. A spoiled one never leaves them up to date. */
  lemma {:induction false} SyncProgress(desired: seq<HintSpec>, taken: set<int>, s: HintState, deletes: seq<int>)
    requires Sound(s.hints) && IsDeleteOrder(desired, s.hints, deletes)
    ensures var (s', ok) := SyncHints(desired, taken, s, deletes);
            && (Progress(desired, s.hints, s'.hints) <==> !Spoiled(desired, s.hints, s.line))
            && (ok ==> (HintsUpToDate(desired, s'.hints) <==> !Spoiled(desired, s.hints, s.line)))
            && (HintsUpToDate(desired, s'.hints) ==> !Spoiled(desired, s.hints, s.line))
            && Sound(s'.hints)
  {
    hide Spoiled, HintsUpToDate;
    var s' := SyncHints(desired, taken, s, deletes).0;
    if Spoiled(desired, s.hints, s.line) {
      var ids, j := SyncSpoils(desired, taken, s, deletes);
      TooLongTells(desired, s'.hints, ids, j);
      ProgressTellsId(desired, s.hints, s'.hints, j);
    } else {
      SyncUnspoiled(desired, taken, s, deletes);
    }
  }

  lemma {:induction false} ProgressTellsId(desired: seq<HintSpec>, a: seq<Hint>, b: seq<Hint>, j: nat)
    requires j < |desired| && IdOf(desired, a, j) >= 0 && IdOf(desired, b, j) != IdOf(desired, a, j)
    ensures !Progress(desired, a, b)
  {
    if Progress(desired, a, b) {
      ProgressKeepsId(desired, a, b, j);
    }
  }
}

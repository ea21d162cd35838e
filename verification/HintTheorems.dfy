/** What the hint synchronisation guarantees: over one run without failures, over
    every run with failures, and of the prerequisite graph it leaves behind. */
module HintTheorems {
  import opened Wrappers
  import opened Ctfd
  import opened Keys
  import opened Matching
  import opened PrereqGraph
  import opened HintSync
  import opened HintProgress
  import opened HintPhases
  import opened HintExact
  import opened HintMoments

  // ---------- what is sent to the server ----------

  lemma {:induction false} QuietStays(line: Line, w: Write)
    ensures line.Quiet() ==> line.Next().fault == Served && line.Sent(w).Quiet()
    ensures |line.Sent(w).log| == |line.log| + 1
  {
  }

  lemma {:induction false} PostLine(s: HintState, taken: set<int>, d: HintSpec)
    ensures var (s', id) := PostHintCall(s, taken, d);
            && |s'.line.log| == |s.line.log| + 1
            && (s.line.Quiet() ==> id.Some? && s'.line.Quiet())
  {
    QuietStays(s.line, PostHint);
  }

  lemma {:induction false} CreateTraffic(desired: seq<HintSpec>, i: nat, ids: seq<int>, taken: set<int>, s: HintState)
    requires i <= |desired| == |ids|
    ensures var c := CreateMissing(desired, i, ids, taken, s);
            && |c.state.line.log| >= |s.line.log|
            && (s.line.Quiet() ==> c.ok && c.state.line.Quiet())
    decreases |desired| - i
  {
    hide PostHintCall, Line.Quiet;
    if i < |desired| {
      if ids[i] >= 0 {
        CreateTraffic(desired, i + 1, ids, taken, s);
      } else {
        var (s', id) := PostHintCall(s, taken, desired[i]);
        PostLine(s, taken, desired[i]);
        if id.Some? {
          CreateTraffic(desired, i + 1, ids[i := id.value], taken, s');
        }
      }
    }
  }

  lemma {:induction false} NoneMissing(desired: seq<HintSpec>, i: nat, ids: seq<int>, taken: set<int>, s: HintState)
    requires i <= |desired| == |ids| && forall j :: i <= j < |ids| ==> ids[j] >= 0
    ensures CreateMissing(desired, i, ids, taken, s) == Created(s, ids, true)
    decreases |desired| - i
  {
    if i < |desired| {
      NoneMissing(desired, i + 1, ids, taken, s);
    }
  }

  lemma {:induction false} SomeMissing(desired: seq<HintSpec>, i: nat, ids: seq<int>, taken: set<int>, s: HintState,
      j: nat)
    requires i <= j < |desired| == |ids| && ids[j] < 0
    ensures |CreateMissing(desired, i, ids, taken, s).state.line.log| > |s.line.log|
    decreases |desired| - i
  {
    hide PostHintCall;
    if ids[i] >= 0 {
      SomeMissing(desired, i + 1, ids, taken, s, j);
    } else {
      var (s', id) := PostHintCall(s, taken, desired[i]);
      PostLine(s, taken, desired[i]);
      if id.Some? {
        CreateTraffic(desired, i + 1, ids[i := id.value], taken, s');
      }
    }
  }

  ghost predicate AllSettled(desired: seq<HintSpec>, existing: seq<Hint>, ids: seq<int>, i: nat)
    requires |desired| == |ids| && Resolvable(desired)
  {
    forall j :: i <= j < |ids| ==> SettledAt(desired, existing, ids, j)
  }

  lemma {:induction false} SettledStep(desired: seq<HintSpec>, existing: seq<Hint>, ids: seq<int>, i: nat)
    requires i < |desired| == |ids| && Resolvable(desired)
    ensures AllSettled(desired, existing, ids, i)
       <==> SettledAt(desired, existing, ids, i) && AllSettled(desired, existing, ids, i + 1)
  {
  }

  lemma {:induction false} PatchLine(s: HintState, id: int, d: HintSpec, want: seq<int>)
    ensures var (s', ok) := PatchHintCall(s, id, d, want);
            s'.line == s.line.Sent(PatchHint(id)) && (ok <==> s.line.Next().fault == Served)
  {
  }

  lemma {:induction false} WireTraffic(desired: seq<HintSpec>, existing: seq<Hint>, ids: seq<int>, i: nat, s: HintState)
    requires i <= |desired| == |ids| && Resolvable(desired)
    ensures var (s', ok) := Wire(desired, existing, ids, i, s);
            && |s'.line.log| >= |s.line.log|
            && (s.line.Quiet() ==> ok && s'.line.Quiet())
            && (AllSettled(desired, existing, ids, i) ==> (s', ok) == (s, true))
            && (!AllSettled(desired, existing, ids, i) ==> |s'.line.log| > |s.line.log|)
    decreases |desired| - i
  {
    hide PatchHintCall, Settled, MapPrereqs;
    if i < |desired| {
      SettledStep(desired, existing, ids, i);
      if SettledAt(desired, existing, ids, i) {
        WireTraffic(desired, existing, ids, i + 1, s);
      } else {
        var (s', ok) := PatchHintCall(s, ids[i], desired[i], MapPrereqs(desired[i].prerequisites, ids));
        PatchLine(s, ids[i], desired[i], MapPrereqs(desired[i].prerequisites, ids));
        QuietStays(s.line, PatchHint(ids[i]));
        if ok {
          WireTraffic(desired, existing, ids, i + 1, s');
        }
      }
    }
  }

  lemma {:induction false} DeleteTraffic(deletes: seq<int>, s: HintState)
    ensures var (s', ok) := DeleteAll(deletes, s);
            && |s'.line.log| >= |s.line.log|
            && (s.line.Quiet() ==> ok && s'.line.Quiet())
            && (deletes != [] ==> |s'.line.log| > |s.line.log|)
    decreases |deletes|
  {
    if deletes != [] {
      var (s', ok) := DeleteHintCall(s, deletes[0]);
      QuietStays(s.line, DeleteHint(deletes[0]));
      if ok {
        DeleteTraffic(deletes[1..], s');
      }
    }
  }

  lemma {:induction false} PlacedIsSettled(desired: seq<HintSpec>, hints: seq<Hint>, j: nat)
    requires j < |desired| && Resolvable(desired)
    ensures PlacedAt(desired, hints, j) <==>
              IdOf(desired, hints, j) >= 0 && SettledAt(desired, hints, Ids(desired, hints), j)
  {
    hide Settled, Lookup, MapPrereqs;
    IdsAre(desired, hints);
  }

  lemma {:induction false} SettledMeansInPlace(desired: seq<HintSpec>, hints: seq<Hint>)
    requires Resolvable(desired) && forall j :: 0 <= j < |desired| ==> IdOf(desired, hints, j) >= 0
    ensures InPlace(desired, hints) <==> AllSettled(desired, hints, Ids(desired, hints), 0)
  {
    forall j | 0 <= j < |desired|
      ensures PlacedAt(desired, hints, j) <==> SettledAt(desired, hints, Ids(desired, hints), j)
    {
      PlacedIsSettled(desired, hints, j);
    }
  }

  /** Detection and actuation agree, once the hints are listed. */
  lemma {:induction false} ListedWrites(desired: seq<HintSpec>, taken: set<int>, existing: seq<Hint>, s: HintState,
      deletes: seq<int>)
    requires Resolvable(desired) && |deletes| == |Unwanted(desired, existing)|
    ensures var c := CreateMissing(desired, 0, Ids(desired, existing), taken, s);
            var quiet := Unwanted(desired, existing) == [] && InPlace(desired, existing);
            && (quiet ==> c == Created(s, Ids(desired, existing), true)
                          && WireAndDelete(desired, existing, c.ids, c.state, deletes) == (s, true))
            && (!quiet && !c.ok ==> |c.state.line.log| > |s.line.log|)
            && (!quiet && c.ok ==>
                  |WireAndDelete(desired, existing, c.ids, c.state, deletes).0.line.log| > |s.line.log|)
  {
    hide PlacedAt, Wire, Settled, IdOf;
    var ids := Ids(desired, existing);
    IdsAre(desired, existing);
    if j :| 0 <= j < |ids| && ids[j] < 0 {
      NotPlaced(desired, existing, j);
      SomeMissing(desired, 0, ids, taken, s, j);
      var c := CreateMissing(desired, 0, ids, taken, s);
      FinishTraffic(desired, existing, c.ids, c.state, deletes);
    } else {
      NoneMissing(desired, 0, ids, taken, s);
      SettledMeansInPlace(desired, existing);
      FinishTraffic(desired, existing, ids, s, deletes);
    }
  }

  lemma {:induction false} NotPlaced(desired: seq<HintSpec>, hints: seq<Hint>, j: nat)
    requires j < |desired| && IdOf(desired, hints, j) < 0
    ensures !InPlace(desired, hints)
  {
    assert InPlace(desired, hints) ==> PlacedAt(desired, hints, j);
  }

  lemma {:induction false} FinishTraffic(desired: seq<HintSpec>, existing: seq<Hint>, ids: seq<int>, s: HintState,
      deletes: seq<int>)
    requires |desired| == |ids| && Resolvable(desired)
    ensures var (s', ok) := WireAndDelete(desired, existing, ids, s, deletes);
            && |s'.line.log| >= |s.line.log|
            && (s.line.Quiet() ==> ok && s'.line.Quiet())
            && (AllSettled(desired, existing, ids, 0) && deletes == [] ==> (s', ok) == (s, true))
            && (!(AllSettled(desired, existing, ids, 0) && deletes == []) ==> |s'.line.log| > |s.line.log|)
  {
    hide AllSettled, Wire, Line.Quiet;
    WireTraffic(desired, existing, ids, 0, s);
    DeleteTraffic(deletes, Wire(desired, existing, ids, 0, s).0);
  }

  /** Detection and actuation agree: once the hints could be listed, a write is sent
      exactly when Observe would not have called them up to date. An invalid
      specification is never up to date and nothing is sent for it. */
  lemma {:induction false} WritesExactlyOnDrift(desired: seq<HintSpec>, taken: set<int>, s: HintState,
      deletes: seq<int>)
    requires IsDeleteOrder(desired, s.hints, deletes)
    ensures var (s', ok) := SyncHints(desired, taken, s, deletes);
            && (HintsUpToDate(desired, s.hints) ==> s'.hints == s.hints && s'.line.log == s.line.log)
            && (!Unlockable(Prereqs(desired)) ==> (s', ok) == (s, false) && !HintsUpToDate(desired, s.hints))
            && (Unlockable(Prereqs(desired)) && ListHints(s).1 ==>
                  (s'.line.log == s.line.log <==> HintsUpToDate(desired, s.hints)))
  {
    hide Unlockable, WireAndDelete, CreateMissing, InPlace, Unwanted;
    assert |deletes| == |multiset(deletes)| == |multiset(Unwanted(desired, s.hints))| == |Unwanted(desired, s.hints)|;
    if Unlockable(Prereqs(desired)) {
      ValidMeansResolvable(desired);
      ReadManyKeepsLog(s.line, 1 + |s.hints|);
      ListedWrites(desired, taken, s.hints, ListHints(s).0, deletes);
    }
  }

  lemma {:induction false} SyncQuiet(desired: seq<HintSpec>, taken: set<int>, s: HintState, deletes: seq<int>)
    requires Unlockable(Prereqs(desired)) && s.line.Quiet()
    ensures var (s', ok) := SyncHints(desired, taken, s, deletes);
            ok && s'.line.Quiet()
  {
    hide Unlockable, Wire, Line.Quiet;
    ValidMeansResolvable(desired);
    ReadManyKeepsLog(s.line, 1 + |s.hints|);
    var ids := Ids(desired, s.hints);
    CreateTraffic(desired, 0, ids, taken, ListHints(s).0);
    var c := CreateMissing(desired, 0, ids, taken, ListHints(s).0);
    FinishTraffic(desired, s.hints, c.ids, c.state, deletes);
  }

  lemma {:induction false} TitlesAgreeUnspoiled(desired: seq<HintSpec>, hints: seq<Hint>, line: Line)
    ensures TitlesAgree(desired, hints) ==> !Spoiled(desired, hints, line)
  {
    hide Unlockable, NeedsPatch, KeepsAt, PatchTurn;
  }

  /** Titles agree whenever no title that is listed holds a NUL. */
  lemma {:induction false} NulFreeTitlesAgree(desired: seq<HintSpec>, hints: seq<Hint>)
    requires Sound(hints) && forall p :: 0 <= p < |hints| ==> NulFree(Deref(hints[p].title))
    ensures TitlesAgree(desired, hints)
  {
    forall i | 0 <= i < |desired| && desired[i].title.None? && IdOf(desired, hints, i) >= 0
      ensures TitleOf(Lookup(hints, IdOf(desired, hints, i))) == ""
    {
      var p := PlaceOf(desired, hints, i);
      var d, h := desired[i], hints[p];
      HintKeyIdentifiesValue(Deref(h.content), h.title, h.cost, d.content, d.title, d.cost);
    }
  }

  /** Without failures one synchronisation of a valid specification converges, whatever
      hints, duplicates and prerequisites the server held before, exactly if it is not
      spoiled; with titles that agree it never is. */
  lemma {:induction false} SyncConverges(desired: seq<HintSpec>, taken: set<int>, s: HintState, deletes: seq<int>)
    requires Unlockable(Prereqs(desired)) && Sound(s.hints)
    requires IsDeleteOrder(desired, s.hints, deletes) && s.line.Quiet()
    ensures var (s', ok) := SyncHints(desired, taken, s, deletes);
            && ok && s'.line.Quiet()
            && (HintsUpToDate(desired, s'.hints) <==> !Spoiled(desired, s.hints, s.line))
            && (TitlesAgree(desired, s.hints) ==> HintsUpToDate(desired, s'.hints))
  {
    hide Spoiled, HintsUpToDate, Progress, Unlockable, Line.Quiet;
    SyncQuiet(desired, taken, s, deletes);
    SyncProgress(desired, taken, s, deletes);
    TitlesAgreeUnspoiled(desired, s.hints, s.line);
  }

  lemma {:induction false} SpoiledMeansCan(desired: seq<HintSpec>, hints: seq<Hint>, line: Line)
    ensures Spoiled(desired, hints, line) ==> CanSpoil(desired, hints)
    ensures TitlesAgree(desired, hints) ==> !CanSpoil(desired, hints)
    ensures Sound(hints) && InPlace(desired, hints) ==> !CanSpoil(desired, hints)
  {
    hide Unlockable, MisTitled, NeedsPatch, KeepsAt, PatchTurn, InPlace, Sound;
    if CanSpoil(desired, hints) {
      var i :| 0 <= i < |desired| && MisTitled(desired, hints, i) && NeedsPatch(desired, hints, i);
      PlacedNeedsNoPatch(desired, hints, i);
    }
  }

  lemma {:induction false} PlacedIffFulfilled(desired: seq<HintSpec>, hints: seq<Hint>, d: nat)
    requires d < |desired| && Sound(hints) && Resolvable(desired)
    ensures PlacedAt(desired, hints, d) <==> Fulfilled(desired, hints, d)
  {
    hide PlacedAt, SettledAt, IdOf;
    PlacedIsSettled(desired, hints, d);
    if IdOf(desired, hints, d) >= 0 {
      ListedSettledIff(desired, hints, d);
    } else {
      forall p | 0 <= p < |hints| ensures hints[p].id >= 0 {
        assert Items(hints)[p].id == hints[p].id;
      }
    }
  }

  lemma {:induction false} PlacedNeedsNoPatch(desired: seq<HintSpec>, hints: seq<Hint>, i: nat)
    requires i < |desired|
    ensures Sound(hints) && InPlace(desired, hints) ==> !NeedsPatch(desired, hints, i)
  {
    hide SettledAt, Fulfilled, IdOf, Settled, MapPrereqs;
    if Sound(hints) && InPlace(desired, hints) {
      forall p | 0 <= p < |desired| ensures IdOf(desired, hints, p) >= 0 {
        assert PlacedAt(desired, hints, p);
      }
      assert PlacedAt(desired, hints, i);
      PlacedIffFulfilled(desired, hints, i);
    }
  }

  /** A server that keeps every title spoils whatever can be spoiled. */
  lemma {:induction false} KeeperSpoils(desired: seq<HintSpec>, hints: seq<Hint>) returns (n: nat)
    requires Unlockable(Prereqs(desired)) && CanSpoil(desired, hints)
    ensures forall line: Line :: line.Keeps(n) ==> Spoiled(desired, hints, line)
  {
    hide Unlockable, MisTitled, NeedsPatch, PatchTurn;
    var i :| 0 <= i < |desired| && MisTitled(desired, hints, i) && NeedsPatch(desired, hints, i);
    var turn := PatchTurn(desired, hints, i);
    n := turn + 1;
    forall line: Line | line.Keeps(n) ensures Spoiled(desired, hints, line) {
      assert line.Answer(turn) == KEPT;
      assert SpoiledAt(desired, hints, line, i);
    }
  }

  function Keeper(n: nat): (line: Line)
    ensures line.Keeps(n)
    ensures line.Quiet()
  {
    Line(seq(n, _ => KEPT), [])
  }

  /** A valid specification converges on every server without failures, exactly if no
      listed hint that needs a patch is mis-titled. */
  lemma {:induction false} ConvergesOnEveryServerIff(desired: seq<HintSpec>, taken: set<int>, hints: seq<Hint>)
    requires Unlockable(Prereqs(desired)) && Sound(hints)
    ensures (forall line: Line, deletes: seq<int> :: line.Quiet() && IsDeleteOrder(desired, hints, deletes) ==>
               HintsUpToDate(desired, SyncHints(desired, taken, HintState(hints, line), deletes).0.hints))
       <==> !CanSpoil(desired, hints)
  {
    hide Unlockable, CanSpoil, Spoiled, HintsUpToDate, SyncHints, Line.Quiet, Line.Keeps, Unwanted;
    forall line: Line, deletes: seq<int> | line.Quiet() && IsDeleteOrder(desired, hints, deletes)
      ensures HintsUpToDate(desired, SyncHints(desired, taken, HintState(hints, line), deletes).0.hints)
         <==> !Spoiled(desired, hints, line)
    {
      SyncConverges(desired, taken, HintState(hints, line), deletes);
    }
    if CanSpoil(desired, hints) {
      var n := KeeperSpoils(desired, hints);
      var deletes := Unwanted(desired, hints);
      assert Keeper(n).Quiet() && IsDeleteOrder(desired, hints, deletes);
      assert !HintsUpToDate(desired, SyncHints(desired, taken, HintState(hints, Keeper(n)), deletes).0.hints);
    } else {
      forall line: Line, deletes: seq<int> | line.Quiet() && IsDeleteOrder(desired, hints, deletes)
        ensures HintsUpToDate(desired, SyncHints(desired, taken, HintState(hints, line), deletes).0.hints)
      {
        SpoiledMeansCan(desired, hints, line);
      }
    }
  }

  // ---------- how many writes ----------

  /** The entries of n creations that took effect. */
  function PostLog(n: nat): seq<Entry> {
    seq(n, _ => Entry(PostHint, true))
  }

  /** Those of a patch for each hint from i on that needs one, in order. */
  ghost function PatchLog(desired: seq<HintSpec>, hints: seq<Hint>, ids: seq<int>, i: nat): (log: seq<Entry>)
    requires i <= |desired| == |ids|
    decreases |desired| - i
  {
    if i == |desired| then []
    else (if NeedsPatch(desired, hints, i) then [Entry(PatchHint(ids[i]), true)] else [])
         + PatchLog(desired, hints, ids, i + 1)
  }

  function DeleteLog(deletes: seq<int>): seq<Entry> {
    seq(|deletes|, k requires 0 <= k < |deletes| => Entry(DeleteHint(deletes[k]), true))
  }

  lemma {:induction false} PostSent(s: HintState, taken: set<int>, d: HintSpec)
    ensures s.line.Quiet() ==>
              && PostHintCall(s, taken, d).1.Some? && PostHintCall(s, taken, d).0.line.Quiet()
              && PostHintCall(s, taken, d).0.line.log == s.line.log + [Entry(PostHint, true)]
  {
    QuietStays(s.line, PostHint);
  }

  lemma {:induction false} CreateWrites(desired: seq<HintSpec>, existing: seq<Hint>, i: nat, ids: seq<int>,
      taken: set<int>, s: HintState)
    requires i <= |desired| == |ids| && s.line.Quiet()
    requires forall j :: i <= j < |desired| ==> ids[j] == IdOf(desired, existing, j)
    ensures Missing(desired, existing, |desired|) >= Missing(desired, existing, i)
    ensures CreateMissing(desired, i, ids, taken, s).state.line.log ==
            s.line.log + PostLog(Missing(desired, existing, |desired|) - Missing(desired, existing, i))
    decreases |desired| - i
  {
    hide PostHintCall, Line.Quiet, IdOf;
    if i < |desired| {
      var before, after := Missing(desired, existing, i), Missing(desired, existing, i + 1);
      assert after == before + if IdOf(desired, existing, i) < 0 then 1 else 0;
      if ids[i] >= 0 {
        CreateWrites(desired, existing, i + 1, ids, taken, s);
      } else {
        var (s', id) := PostHintCall(s, taken, desired[i]);
        PostSent(s, taken, desired[i]);
        CreateWrites(desired, existing, i + 1, ids[i := id.value], taken, s');
        var n := Missing(desired, existing, |desired|) - after;
        assert [Entry(PostHint, true)] + PostLog(n) == PostLog(n + 1);
      }
    }
  }

  lemma {:induction false} PatchLogCounts(desired: seq<HintSpec>, hints: seq<Hint>, ids: seq<int>, i: nat)
    requires i <= |desired| == |ids| && Resolvable(desired)
    ensures |PatchLog(desired, hints, ids, i)| == Patches(desired, hints, |desired|) - Patches(desired, hints, i)
    decreases |desired| - i
  {
    hide NeedsPatch;
    if i < |desired| {
      PatchLogCounts(desired, hints, ids, i + 1);
      assert Patches(desired, hints, i + 1) ==
             Patches(desired, hints, i) + if NeedsPatch(desired, hints, i) then 1 else 0;
    }
  }

  lemma {:induction false} PatchLogStep(desired: seq<HintSpec>, existing: seq<Hint>, ids: seq<int>, i: nat)
    requires i < |desired| && Resolvable(desired) && Sound(existing) && AllNamed(desired, existing, ids)
    ensures PatchLog(desired, existing, ids, i) ==
            (if SettledAt(desired, existing, ids, i) then [] else [Entry(PatchHint(ids[i]), true)])
            + PatchLog(desired, existing, ids, i + 1)
  {
    hide NeedsPatch, SettledAt, AllNamed, Sound;
    UnsettledIff(desired, existing, ids, i);
  }

  lemma {:induction false} PatchSent(s: HintState, id: int, d: HintSpec, want: seq<int>)
    ensures s.line.Quiet() ==>
              && PatchHintCall(s, id, d, want).1 && PatchHintCall(s, id, d, want).0.line.Quiet()
              && PatchHintCall(s, id, d, want).0.line.log == s.line.log + [Entry(PatchHint(id), true)]
  {
    QuietStays(s.line, PatchHint(id));
  }

  lemma {:induction false} WireWrites(desired: seq<HintSpec>, existing: seq<Hint>, ids: seq<int>, i: nat, s: HintState)
    requires i <= |desired| == |ids| && Resolvable(desired) && s.line.Quiet()
    requires Sound(existing) && AllNamed(desired, existing, ids)
    ensures Wire(desired, existing, ids, i, s).0.line.log == s.line.log + PatchLog(desired, existing, ids, i)
    decreases |desired| - i
  {
    hide PatchHintCall, Settled, MapPrereqs, Line.Quiet, AllNamed, Lookup, NeedsPatch, Sound;
    if i < |desired| {
      PatchLogStep(desired, existing, ids, i);
      if SettledAt(desired, existing, ids, i) {
        WireWrites(desired, existing, ids, i + 1, s);
      } else {
        var want := MapPrereqs(desired[i].prerequisites, ids);
        PatchSent(s, ids[i], desired[i], want);
        WireWrites(desired, existing, ids, i + 1, PatchHintCall(s, ids[i], desired[i], want).0);
      }
    }
  }

  lemma {:induction false} DeleteWrites(deletes: seq<int>, s: HintState)
    requires s.line.Quiet()
    ensures DeleteAll(deletes, s).0.line.log == s.line.log + DeleteLog(deletes)
    decreases |deletes|
  {
    hide Line.Quiet;
    if deletes != [] {
      QuietStays(s.line, DeleteHint(deletes[0]));
      DeleteWrites(deletes[1..], DeleteHintCall(s, deletes[0]).0);
      assert [Entry(DeleteHint(deletes[0]), true)] + DeleteLog(deletes[1..]) == DeleteLog(deletes);
    }
  }

  lemma {:induction false} FinishWrites(desired: seq<HintSpec>, existing: seq<Hint>, ids: seq<int>, s: HintState,
      deletes: seq<int>)
    requires |ids| == |desired| && Resolvable(desired) && s.line.Quiet()
    requires Sound(existing) && AllNamed(desired, existing, ids)
    ensures WireAndDelete(desired, existing, ids, s, deletes).0.line.log ==
            s.line.log + PatchLog(desired, existing, ids, 0) + DeleteLog(deletes)
  {
    hide Wire, DeleteAll, Line.Quiet, AllNamed, AllSettled, PatchLog;
    WireWrites(desired, existing, ids, 0, s);
    WireTraffic(desired, existing, ids, 0, s);
    DeleteWrites(deletes, Wire(desired, existing, ids, 0, s).0);
  }

  lemma {:induction false} CreatingNames(desired: seq<HintSpec>, existing: seq<Hint>, c: Created)
    ensures CreatedWell(desired, existing, c) && c.ok ==> AllNamed(desired, existing, c.ids)
  {
    hide Named, StoredAs, Progress, Unwanted;
  }

  lemma {:induction false} ListingKeepsLog(s: HintState)
    ensures ListHints(s).0.line.log == s.line.log && ListHints(s).0.hints == s.hints
    ensures s.line.Quiet() ==> ListHints(s).1 && ListHints(s).0.line.Quiet()
  {
    ReadManyKeepsLog(s.line, 1 + |s.hints|);
  }

  lemma {:induction false} QuietCreation(desired: seq<HintSpec>, taken: set<int>, s: HintState, s1: HintState)
    returns (c: Created)
    requires Unlockable(Prereqs(desired)) && Resolvable(desired) && Sound(s.hints) && s.line.Quiet()
    requires ListHints(s) == (s1, true) && s1.line.Quiet()
    ensures c == CreateMissing(desired, 0, Ids(desired, s.hints), taken, s1)
    ensures c.ok && c.state.line.Quiet() && |c.ids| == |desired| && AllNamed(desired, s.hints, c.ids)
    ensures c.state.line.log == s1.line.log + PostLog(Missing(desired, s.hints, |desired|))
  {
    hide Unlockable, CreateMissing, Resolvable, Line.Quiet, CreatedWell, OnTurn, IdOf, Ids, PostLog, Sound, AllNamed,
         ListHints;
    IdsAre(desired, s.hints);
    c := CreateMissing(desired, 0, Ids(desired, s.hints), taken, s1);
    CreateTraffic(desired, 0, Ids(desired, s.hints), taken, s1);
    CreateWrites(desired, s.hints, 0, Ids(desired, s.hints), taken, s1);
    CreatedFromListing(desired, taken, s);
    CreatingNames(desired, s.hints, c);
    assert Missing(desired, s.hints, 0) == 0;
  }

  lemma {:induction false} QuietSync(desired: seq<HintSpec>, taken: set<int>, s: HintState, deletes: seq<int>)
    requires Unlockable(Prereqs(desired)) && Resolvable(desired) && ListHints(s).1
    ensures var c := CreateMissing(desired, 0, Ids(desired, s.hints), taken, ListHints(s).0);
            c.ok ==>
              SyncHints(desired, taken, s, deletes) == WireAndDelete(desired, s.hints, c.ids, c.state, deletes)
  {
    hide Unlockable, CreateMissing, Ids, ListHints, WireAndDelete;
  }

  lemma {:induction false} NoneBefore(desired: seq<HintSpec>, hints: seq<Hint>)
    requires Resolvable(desired)
    ensures Missing(desired, hints, 0) == 0 && Patches(desired, hints, 0) == 0
  {
  }

  /** Without failures a synchronisation sends exactly one creation for each desired hint
      that is missing, then a patch for each that has to be patched, then a deletion for
      each hint too many; ids are those listed, or new ones. */
  lemma {:induction false} HintWrites(desired: seq<HintSpec>, taken: set<int>, s: HintState, deletes: seq<int>)
    returns (ids: seq<int>)
    requires Unlockable(Prereqs(desired)) && Sound(s.hints)
    requires IsDeleteOrder(desired, s.hints, deletes) && s.line.Quiet()
    ensures Resolvable(desired) && AllNamed(desired, s.hints, ids)
    ensures SyncHints(desired, taken, s, deletes).0.line.log ==
            s.line.log + PostLog(Missing(desired, s.hints, |desired|))
            + PatchLog(desired, s.hints, ids, 0) + DeleteLog(deletes)
    ensures |PatchLog(desired, s.hints, ids, 0)| == Patches(desired, s.hints, |desired|)
    ensures |deletes| == |Unwanted(desired, s.hints)|
  {
    ValidMeansResolvable(desired);
    assert |deletes| == |multiset(deletes)| == |multiset(Unwanted(desired, s.hints))| == |Unwanted(desired, s.hints)|;
    hide *;
    ListingKeepsLog(s);
    var c := QuietCreation(desired, taken, s, ListHints(s).0);
    FinishWrites(desired, s.hints, c.ids, c.state, deletes);
    QuietSync(desired, taken, s, deletes);
    PatchLogCounts(desired, s.hints, c.ids, 0);
    NoneBefore(desired, s.hints);
    ids := c.ids;
  }

  lemma {:induction false} SingleHint(d: HintSpec, h: Hint)
    requires d.prerequisites == [] && h.id >= 0
    ensures var desired, hints := [d], [h];
            && Unlockable(Prereqs(desired)) && UniqueIds(Items(hints)) && Resolvable(desired)
            && (KeyOf(h) == WantedKey(d) ==> Ids(desired, hints) == [h.id] && Unwanted(desired, hints) == [])
            && (KeyOf(h) != WantedKey(d) ==> IdOf(desired, hints, 0) == -1)
  {
    var desired, hints := [d], [h];
    var keys, items := Wanted(desired), Items(hints);
    assert keys == [WantedKey(d)] && items == [Item(h.id, KeyOf(h))];
    assert keys[..0] == [] && items[..0] == [];
    assert Queue(items[..0], keys[0]) == [] && Rank(keys, 0) == 0;
    assert Queue(items, keys[0]) == if KeyOf(h) == keys[0] then [h.id] else [];
    assert 0 in Unlocked(Prereqs(desired), 1);
    if KeyOf(h) == WantedKey(d) {
      assert Place(items, 0) == 0 && multiset(keys)[items[0].key] == 1;
      assert Surplus(keys, items[..0]) == [];
    }
  }

  /** A synchronisation that is spoiled, though no call fails. A NUL in a listed title
      lets a hint pass for a desired one that has no title; the server keeps the title
      that the patch does not send, and what is left is no longer that hint. */
  lemma {:induction false} NulInTitlePreventsConvergence(nul: string, filler: Record)
    requires nul == [NUL]
    ensures var desired := [HintSpec("a" + nul + "b", None, 1, [], None)];
            var listed := [Hint(7, Some("a"), Some("b" + nul), 1, Some(Requirements(None, [9])))];
            var served := Reply(Served, 0, true, filler);
            var s := HintState(listed, Line([served, served, served], []));
            && Unlockable(Prereqs(desired)) && UniqueIds(Items(listed)) && s.line.Quiet()
            && IsDeleteOrder(desired, listed, [])
            && SyncHints(desired, {}, s, []).1
            && !HintsUpToDate(desired, SyncHints(desired, {}, s, []).0.hints)
  {
    var d := HintSpec("a" + nul + "b", None, 1, [], None);
    var h := Hint(7, Some("a"), Some("b" + nul), 1, Some(Requirements(None, [9])));
    var desired, listed := [d], [h];
    var served := Reply(Served, 0, true, filler);
    var s := HintState(listed, Line([served, served, served], []));
    NulInTitleCollides();
    assert KeyOf(h) == WantedKey(d);
    SingleHint(d, h);
    assert s.line.ReadMany(2) == (Line([served], []), true) by {
      assert s.line.Read() == Line([served, served], []) && s.line.Read().Read() == Line([served], []);
    }
    var b := PatchWhere(listed, 7, d, [], true);
    assert b == [Hint(7, Some("a" + nul + "b"), Some("b" + nul), 1, Some(Requirements(None, [])))];
    assert KeyOf(b[0]) != WantedKey(d) by {
      assert |KeyOf(b[0])| == |WantedKey(d)| + 2;
    }
    SingleHint(d, b[0]);
    var s1 := HintState(listed, Line([served], []));
    assert ListHints(s) == (s1, true);
    assert CreateMissing(desired, 0, [7], {}, s1) == Created(s1, [7], true);
    assert Lookup(listed, 7) == Some(h);
    assert 9 in multiset(PrereqsOf(ReqOf(Some(h))));
    assert MapPrereqs(d.prerequisites, [7]) == [];
    var (s2, ok) := PatchHintCall(s1, 7, d, []);
    assert s2.hints == b && ok;
    assert Wire(desired, listed, [7], 0, s1) == Wire(desired, listed, [7], 1, s2) == (s2, true);
    assert SyncHints(desired, {}, s, []) == (s2, true);
    assert InPlace(desired, b) ==> PlacedAt(desired, b, 0);
  }

  // ---------- every run of retries ----------

  /** One attempt: the server's answers, the order of deletes, and the ids in use
      elsewhere. */
  datatype Attempt = Attempt(line: Line, deletes: seq<int>, taken: set<int>)

  ghost predicate IsAttempt(desired: seq<HintSpec>, a: seq<Hint>, t: Attempt, b: seq<Hint>) {
    && IsDeleteOrder(desired, a, t.deletes)
    && b == SyncHints(desired, t.taken, HintState(a, t.line), t.deletes).0.hints
  }

  /** Any number of attempts for one specification, failing in any way. */
  ghost predicate IsRun(desired: seq<HintSpec>, attempts: seq<Attempt>, trace: seq<seq<Hint>>) {
    && |trace| == |attempts| + 1
    && forall t :: 0 <= t < |attempts| ==> IsAttempt(desired, trace[t], attempts[t], trace[t + 1])
  }

  ghost predicate Unspoiled(desired: seq<HintSpec>, attempts: seq<Attempt>, trace: seq<seq<Hint>>) {
    forall t :: 0 <= t < |attempts| && t < |trace| ==> !Spoiled(desired, trace[t], attempts[t].line)
  }

  lemma {:induction false} AttemptProgress(desired: seq<HintSpec>, a: seq<Hint>, t: Attempt, b: seq<Hint>)
    ensures Sound(a) && IsAttempt(desired, a, t, b) ==>
              Sound(b) && (Progress(desired, a, b) <==> !Spoiled(desired, a, t.line))
  {
    hide Progress, Spoiled;
    if Sound(a) && IsAttempt(desired, a, t, b) {
      SyncProgress(desired, t.taken, HintState(a, t.line), t.deletes);
    }
  }

  lemma {:induction false} RunSound(desired: seq<HintSpec>, attempts: seq<Attempt>, trace: seq<seq<Hint>>, i: nat)
    requires IsRun(desired, attempts, trace) && i < |trace|
    ensures Sound(trace[0]) ==> Sound(trace[i])
  {
    hide Progress, Sound, IsAttempt, Spoiled;
    if i > 0 {
      RunSound(desired, attempts, trace, i - 1);
      assert IsAttempt(desired, trace[i - 1], attempts[i - 1], trace[i - 1 + 1]);
      AttemptProgress(desired, trace[i - 1], attempts[i - 1], trace[i]);
    }
  }

  /** Every attempt of a run is progress exactly if none of them is spoiled. */
  lemma {:induction false} RunProgressesIff(desired: seq<HintSpec>, attempts: seq<Attempt>, trace: seq<seq<Hint>>)
    requires IsRun(desired, attempts, trace) && Sound(trace[0])
    ensures (forall t :: 0 <= t < |attempts| ==> Progress(desired, trace[t], trace[t + 1]))
       <==> Unspoiled(desired, attempts, trace)
  {
    hide Progress, Sound, IsAttempt, Spoiled;
    forall t | 0 <= t < |attempts|
      ensures Progress(desired, trace[t], trace[t + 1]) <==> !Spoiled(desired, trace[t], attempts[t].line)
    {
      RunSound(desired, attempts, trace, t);
      AttemptProgress(desired, trace[t], attempts[t], trace[t + 1]);
    }
    if forall t :: 0 <= t < |attempts| ==> Progress(desired, trace[t], trace[t + 1]) {
      forall t | 0 <= t < |attempts| ensures !Spoiled(desired, trace[t], attempts[t].line) {
        assert Progress(desired, trace[t], trace[t + 1]);
      }
    }
  }

  /** Titles that agree when a run starts agree throughout, and no attempt is spoiled. */
  lemma {:induction false} TitlesKeepAgreeing(desired: seq<HintSpec>, attempts: seq<Attempt>, trace: seq<seq<Hint>>,
      t: nat)
    requires IsRun(desired, attempts, trace) && Sound(trace[0]) && TitlesAgree(desired, trace[0]) && t < |trace|
    ensures TitlesAgree(desired, trace[t])
    ensures t < |attempts| ==> !Spoiled(desired, trace[t], attempts[t].line)
  {
    hide Progress, Sound, IsAttempt, Spoiled, TitlesAgree;
    if t > 0 {
      TitlesKeepAgreeing(desired, attempts, trace, t - 1);
      RunSound(desired, attempts, trace, t - 1);
      assert IsAttempt(desired, trace[t - 1], attempts[t - 1], trace[t - 1 + 1]);
      AttemptProgress(desired, trace[t - 1], attempts[t - 1], trace[t]);
      ProgressKeepsTitles(desired, trace[t - 1], trace[t]);
    }
    if t < |attempts| {
      TitlesAgreeUnspoiled(desired, trace[t], attempts[t].line);
    }
  }

  lemma {:induction false} ProgressKeepsTitles(desired: seq<HintSpec>, a: seq<Hint>, b: seq<Hint>)
    ensures Progress(desired, a, b) && TitlesAgree(desired, a) ==> TitlesAgree(desired, b)
  {
  }

  lemma {:induction false} RunProgress(desired: seq<HintSpec>, attempts: seq<Attempt>, trace: seq<seq<Hint>>,
      i: nat, j: nat)
    requires IsRun(desired, attempts, trace) && Unspoiled(desired, attempts, trace)
    requires Sound(trace[0]) && i <= j < |trace|
    ensures Progress(desired, trace[i], trace[j])
    decreases j
  {
    hide Progress, Sound, IsAttempt, Spoiled;
    RunSound(desired, attempts, trace, i);
    if i == j {
      ProgressReflexive(desired, trace[i]);
    } else {
      RunProgress(desired, attempts, trace, i, j - 1);
      RunSound(desired, attempts, trace, j - 1);
      assert IsAttempt(desired, trace[j - 1], attempts[j - 1], trace[j - 1 + 1]);
      AttemptProgress(desired, trace[j - 1], attempts[j - 1], trace[j]);
      ProgressTransitive(desired, trace[i], trace[j - 1], trace[j]);
    }
  }

  // ---------- every moment of a run ----------

  /** A moment of a run: so many answers into one of its attempts. The start of each
      attempt, and the end of the run, are moments with no answers yet. */
  datatype Moment = Moment(attempt: nat, answers: nat)

  predicate NotAfter(m: Moment, n: Moment) {
    m.attempt < n.attempt || (m.attempt == n.attempt && m.answers <= n.answers)
  }

  ghost function StateAt(desired: seq<HintSpec>, attempts: seq<Attempt>, trace: seq<seq<Hint>>, m: Moment): seq<Hint>
    requires m.attempt <= |attempts| < |trace|
  {
    if m.attempt == |attempts| then trace[m.attempt]
    else
      var t := attempts[m.attempt];
      SyncHints(desired, t.taken, CutState(HintState(trace[m.attempt], t.line), m.answers), t.deletes).0.hints
  }

  lemma {:induction false} AttemptStarts(desired: seq<HintSpec>, attempts: seq<Attempt>, trace: seq<seq<Hint>>, t: nat)
    requires t <= |attempts| < |trace|
    ensures StateAt(desired, attempts, trace, Moment(t, 0)) == trace[t]
  {
    hide SyncHints;
    if t < |attempts| {
      var a := attempts[t];
      CutAtOnce(desired, a.taken, HintState(trace[t], a.line), a.deletes);
    }
  }

  lemma {:induction false} MomentInAttempt(desired: seq<HintSpec>, attempts: seq<Attempt>, trace: seq<seq<Hint>>,
      m: Moment)
    requires IsRun(desired, attempts, trace) && Unspoiled(desired, attempts, trace)
    requires Sound(trace[0]) && m.attempt < |attempts|
    ensures Progress(desired, trace[m.attempt], StateAt(desired, attempts, trace, m))
    ensures Progress(desired, StateAt(desired, attempts, trace, m), trace[m.attempt + 1])
  {
    hide Progress, Spoiled, SyncHints;
    var t, a := attempts[m.attempt], trace[m.attempt];
    RunSound(desired, attempts, trace, m.attempt);
    assert IsAttempt(desired, a, t, trace[m.attempt + 1]);
    var s := HintState(a, t.line);
    CutProgress(desired, t.taken, s, t.deletes, m.answers);
    CutUnspoiled(desired, a, t.line, m.answers);
    SyncProgress(desired, t.taken, CutState(s, m.answers), t.deletes);
  }

  /** In an unspoiled run the hints make progress from any moment to any later one. */
  lemma {:induction false} AnyTwoMoments(desired: seq<HintSpec>, attempts: seq<Attempt>, trace: seq<seq<Hint>>,
      m: Moment, n: Moment)
    requires IsRun(desired, attempts, trace) && Unspoiled(desired, attempts, trace) && Sound(trace[0])
    requires NotAfter(m, n) && n.attempt <= |attempts|
    ensures Progress(desired, StateAt(desired, attempts, trace, m), StateAt(desired, attempts, trace, n))
  {
    hide Progress, Spoiled, SyncHints, Sound;
    RunSound(desired, attempts, trace, m.attempt);
    if m.attempt == n.attempt {
      SameAttempt(desired, attempts, trace, m, n);
    } else {
      MomentInAttempt(desired, attempts, trace, m);
      RunProgress(desired, attempts, trace, m.attempt + 1, n.attempt);
      ProgressTransitive(desired, StateAt(desired, attempts, trace, m), trace[m.attempt + 1], trace[n.attempt]);
      if n.attempt < |attempts| {
        MomentInAttempt(desired, attempts, trace, n);
        ProgressTransitive(desired, StateAt(desired, attempts, trace, m), trace[n.attempt],
                           StateAt(desired, attempts, trace, n));
      }
    }
  }

  lemma {:induction false} SameAttempt(desired: seq<HintSpec>, attempts: seq<Attempt>, trace: seq<seq<Hint>>,
      m: Moment, n: Moment)
    requires IsRun(desired, attempts, trace) && Unspoiled(desired, attempts, trace) && Sound(trace[0])
    requires m.attempt == n.attempt <= |attempts| && m.answers <= n.answers && Sound(trace[m.attempt])
    ensures Progress(desired, StateAt(desired, attempts, trace, m), StateAt(desired, attempts, trace, n))
  {
    hide Progress, Spoiled, SyncHints;
    if m.attempt == |attempts| {
      ProgressReflexive(desired, trace[m.attempt]);
    } else {
      var t, a := attempts[m.attempt], trace[m.attempt];
      assert IsAttempt(desired, a, t, trace[m.attempt + 1]);
      MomentsProgress(desired, t.taken, HintState(a, t.line), t.deletes, m.answers, n.answers);
    }
  }

  function Max(a: int, b: int): int {
    if a < b then b else a
  }

  /** Retries never duplicate a hint and never remove a wanted one: at every moment the
      number of hints of each value is between what was there and what is wanted. */
  lemma {:induction false} RetriesNeverDuplicate(desired: seq<HintSpec>, attempts: seq<Attempt>,
      trace: seq<seq<Hint>>, m: Moment, k: string)
    requires IsRun(desired, attempts, trace) && Unspoiled(desired, attempts, trace) && Sound(trace[0])
    requires m.attempt <= |attempts|
    ensures var held := Held(StateAt(desired, attempts, trace, m), k);
            && Min(Held(trace[0], k), WantedCount(desired, k)) <= held
            && held <= Max(Held(trace[0], k), WantedCount(desired, k))
  {
    hide Spoiled, SyncHints, Held, WantedCount;
    AttemptStarts(desired, attempts, trace, 0);
    AnyTwoMoments(desired, attempts, trace, Moment(0, 0), m);
    assert Towards(Held(trace[0], k), Held(StateAt(desired, attempts, trace, m), k), WantedCount(desired, k));
  }

  /** The ids that the running attempt knows: none before it has listed the hints, then
      those of the plan and of each creation that was served. */
  ghost function KnownIds(desired: seq<HintSpec>, attempts: seq<Attempt>, trace: seq<seq<Hint>>,
      m: Moment): (ids: seq<int>)
    requires m.attempt < |attempts| < |trace|
    ensures |ids| == |desired|
  {
    var t := attempts[m.attempt];
    var s := CutState(HintState(trace[m.attempt], t.line), m.answers);
    if Unlockable(Prereqs(desired)) && ListHints(s).1
    then CreateMissing(desired, 0, Ids(desired, s.hints), t.taken, ListHints(s).0).ids
    else seq(|desired|, _ => -1)
  }

  lemma {:induction false} KnownIdIsPlanned(desired: seq<HintSpec>, attempts: seq<Attempt>, trace: seq<seq<Hint>>,
      m: Moment, d: nat)
    requires IsRun(desired, attempts, trace) && Unspoiled(desired, attempts, trace) && Sound(trace[0])
    requires m.attempt < |attempts| && d < |desired| && KnownIds(desired, attempts, trace, m)[d] >= 0
    ensures IdOf(desired, StateAt(desired, attempts, trace, m), d) == KnownIds(desired, attempts, trace, m)[d]
  {
    hide Spoiled, SyncHints, CreateMissing, IdOf, Unlockable, ListHints;
    var t, a := attempts[m.attempt], trace[m.attempt];
    RunSound(desired, attempts, trace, m.attempt);
    assert IsAttempt(desired, a, t, trace[m.attempt + 1]);
    CutUnspoiled(desired, a, t.line, m.answers);
    CreatedIdsStay(desired, t.taken, CutState(HintState(a, t.line), m.answers), t.deletes);
  }

  /** An id is for good: once a desired hint has one on the server, or an attempt got
      one from the listing or from the answer to its creation, the plan of every later
      moment gives that hint the same id, whichever calls fail in between. */
  lemma {:induction false} IdentityIsStable(desired: seq<HintSpec>, attempts: seq<Attempt>, trace: seq<seq<Hint>>,
      m: Moment, n: Moment, d: nat)
    requires IsRun(desired, attempts, trace) && Unspoiled(desired, attempts, trace) && Sound(trace[0])
    requires NotAfter(m, n) && n.attempt <= |attempts| && d < |desired|
    ensures var id := IdOf(desired, StateAt(desired, attempts, trace, m), d);
            id >= 0 ==> IdOf(desired, StateAt(desired, attempts, trace, n), d) == id
    ensures m.attempt < |attempts| ==>
              var id := KnownIds(desired, attempts, trace, m)[d];
              id >= 0 ==> IdOf(desired, StateAt(desired, attempts, trace, n), d) == id
  {
    hide Spoiled, Progress, StateAt, KnownIds, Sound;
    AnyTwoMoments(desired, attempts, trace, m, n);
    ProgressKeepsId(desired, StateAt(desired, attempts, trace, m), StateAt(desired, attempts, trace, n), d);
    if m.attempt < |attempts| && KnownIds(desired, attempts, trace, m)[d] >= 0 {
      KnownIdIsPlanned(desired, attempts, trace, m, d);
    }
  }

  /** After a hint was deleted, at no later moment does the hint of any desired index
      list it as a prerequisite: all of them exist, and each requires only hints of
      desired indexes, which the deleted one is not. */
  lemma {:induction false} DeletesComeLast(desired: seq<HintSpec>, attempts: seq<Attempt>, trace: seq<seq<Hint>>,
      m: Moment, n: Moment, t: Moment, x: int, d: nat)
    requires IsRun(desired, attempts, trace) && Unspoiled(desired, attempts, trace) && Sound(trace[0])
    requires NotAfter(m, n) && NotAfter(n, t) && t.attempt <= |attempts| && d < |desired|
    requires HasId(StateAt(desired, attempts, trace, m), x) && !HasId(StateAt(desired, attempts, trace, n), x)
    ensures var hints := StateAt(desired, attempts, trace, t);
            && IdOf(desired, hints, d) >= 0
            && x !in PrereqsOf(ReqOf(Lookup(hints, IdOf(desired, hints, d))))
  {
    hide Spoiled, StateAt;
    AnyTwoMoments(desired, attempts, trace, m, n);
    AnyTwoMoments(desired, attempts, trace, n, t);
    GoneIsNotRequired(desired, StateAt(desired, attempts, trace, n), StateAt(desired, attempts, trace, t), x, d);
  }

  lemma {:induction false} GoneIsNotRequired(desired: seq<HintSpec>, b: seq<Hint>, c: seq<Hint>, x: int, d: nat)
    requires Sound(b) && InPlace(desired, b) && Progress(desired, b, c) && !HasId(b, x) && d < |desired|
    ensures IdOf(desired, c, d) >= 0
    ensures x !in PrereqsOf(ReqOf(Lookup(c, IdOf(desired, c, d))))
  {
    hide IdOf, Lookup, HasId, Held, WantedCount, TitlesAgree;
    assert PlacedAt(desired, c, d);
    if x in PrereqsOf(ReqOf(Lookup(c, IdOf(desired, c, d)))) {
      var e := PrereqIsDesired(desired, c, d, x);
      assert PlacedAt(desired, b, e);
      var p := PlaceOf(desired, b, e);
    }
  }

  /** A prerequisite of a hint in place is itself the hint of a desired index. */
  lemma {:induction false} PrereqIsDesired(desired: seq<HintSpec>, hints: seq<Hint>, d: nat, x: int) returns (e: nat)
    requires d < |desired| && Resolvable(desired) && PlacedAt(desired, hints, d)
    requires x in PrereqsOf(ReqOf(Lookup(hints, IdOf(desired, hints, d))))
    ensures e < |desired| && e in desired[d].prerequisites && IdOf(desired, hints, e) == x
  {
    assert x in multiset(PrereqsOf(ReqOf(Lookup(hints, IdOf(desired, hints, d)))));
    assert x in multiset(MapPrereqs(desired[d].prerequisites, Ids(desired, hints)));
    var e' := MappedFrom(desired[d].prerequisites, Ids(desired, hints), x);
    e := e';
  }

  // ---------- the graph left on the server ----------

  /** The same unlocking game, played on the server's hints by id. */
  ghost function UnlockedOnServer(hints: seq<Hint>, rounds: nat): set<int> {
    if rounds == 0 then {}
    else set p | 0 <= p < |hints|
                 && (forall q :: q in PrereqsOf(hints[p].requirements) ==> q in UnlockedOnServer(hints, rounds - 1))
           :: hints[p].id
  }

  lemma {:induction false} UnlockStep(hints: seq<Hint>, p: nat, rounds: nat)
    requires p < |hints| && rounds > 0
    requires forall q :: q in PrereqsOf(hints[p].requirements) ==> q in UnlockedOnServer(hints, rounds - 1)
    ensures hints[p].id in UnlockedOnServer(hints, rounds)
  {
  }

  lemma {:induction false} UnlockedMember(g: Graph, i: int, p: int, rounds: nat)
    requires i in Unlocked(g, rounds) && 0 <= i < |g| && p in g[i]
    ensures rounds > 0 && p in Unlocked(g, rounds - 1)
  {
  }

  lemma {:induction false} PlacedUnlocks(desired: seq<HintSpec>, hints: seq<Hint>, d: nat, rounds: nat)
    requires d < |desired| && UniqueIds(Items(hints)) && Resolvable(desired) && PlacedAt(desired, hints, d)
    requires rounds > 0 && forall e :: e in desired[d].prerequisites ==>
               0 <= e < |desired| && IdOf(desired, hints, e) in UnlockedOnServer(hints, rounds - 1)
    ensures IdOf(desired, hints, d) in UnlockedOnServer(hints, rounds)
  {
    var p := PlaceOf(desired, hints, d);
    forall q | q in PrereqsOf(hints[p].requirements) ensures q in UnlockedOnServer(hints, rounds - 1) {
      var e := PrereqIsDesired(desired, hints, d, q);
    }
    UnlockStep(hints, p, rounds);
  }

  /** What the player can unlock by index can be unlocked on the server by id. */
  lemma {:induction false} UnlockingCarriesOver(desired: seq<HintSpec>, hints: seq<Hint>, d: nat, rounds: nat)
    requires d < |desired| && UniqueIds(Items(hints)) && InPlace(desired, hints)
    requires d in Unlocked(Prereqs(desired), rounds)
    ensures IdOf(desired, hints, d) in UnlockedOnServer(hints, rounds)
    decreases rounds
  {
    hide UnlockedOnServer, PlacedAt;
    assert PlacedAt(desired, hints, d);
    forall e | e in desired[d].prerequisites
      ensures 0 <= e < |desired| && IdOf(desired, hints, e) in UnlockedOnServer(hints, rounds - 1)
    {
      UnlockedMember(Prereqs(desired), d, e, rounds);
      UnlockingCarriesOver(desired, hints, e, rounds - 1);
    }
    PlacedUnlocks(desired, hints, d, rounds);
  }

  /** Each desired index has a hint of its own, and there are no other hints. */
  ghost predicate OneToOne(desired: seq<HintSpec>, hints: seq<Hint>) {
    && (forall id :: HasId(hints, id) <==> exists d :: 0 <= d < |desired| && IdOf(desired, hints, d) == id)
    && (forall d, d' :: 0 <= d < d' < |desired| ==> IdOf(desired, hints, d) != IdOf(desired, hints, d'))
  }

  lemma {:induction false} UpToDateIsOneToOne(desired: seq<HintSpec>, hints: seq<Hint>)
    requires UniqueIds(Items(hints)) && InPlace(desired, hints) && Unwanted(desired, hints) == []
    ensures OneToOne(desired, hints)
  {
    forall d | 0 <= d < |desired| ensures HasId(hints, IdOf(desired, hints, d)) {
      assert PlacedAt(desired, hints, d);
      var p := PlaceOf(desired, hints, d);
    }
    forall id | HasId(hints, id) ensures exists d :: 0 <= d < |desired| && IdOf(desired, hints, d) == id {
      SurplusIsUnbound(Wanted(desired), Items(hints), id);
      var d :| 0 <= d < |desired| && Bind(Wanted(desired), Items(hints), d) == id;
      assert IdOf(desired, hints, d) == id;
    }
    forall d, d' | 0 <= d < d' < |desired| ensures IdOf(desired, hints, d) != IdOf(desired, hints, d') {
      assert PlacedAt(desired, hints, d);
      BindingsDistinct(Wanted(desired), Items(hints), d, d');
    }
  }

  lemma {:induction false} HintOf(desired: seq<HintSpec>, hints: seq<Hint>, p: nat) returns (d: nat)
    requires OneToOne(desired, hints) && p < |hints|
    ensures d < |desired| && IdOf(desired, hints, d) == hints[p].id
  {
    assert Items(hints)[p].id == hints[p].id;
    assert HasId(hints, hints[p].id);
    d :| 0 <= d < |desired| && IdOf(desired, hints, d) == hints[p].id;
  }

  lemma {:induction false} SameSize(desired: seq<HintSpec>, hints: seq<Hint>)
    requires UniqueIds(Items(hints)) && OneToOne(desired, hints)
    ensures |hints| == |desired|
  {
    var ids := Ids(desired, hints);
    var listed := seq(|hints|, p requires 0 <= p < |hints| => hints[p].id);
    forall p, q | 0 <= p < q < |listed| ensures listed[p] != listed[q] {
      assert Items(hints)[p].id != Items(hints)[q].id;
    }
    forall d, d' | 0 <= d < d' < |ids| ensures ids[d] != ids[d'] {
      assert IdOf(desired, hints, d) != IdOf(desired, hints, d');
    }
    forall x | x in ids ensures x in listed {
      var d :| 0 <= d < |ids| && ids[d] == x;
      assert IdOf(desired, hints, d) == x && HasId(hints, x);
      var p :| 0 <= p < |hints| && Items(hints)[p].id == x;
      assert listed[p] == x;
    }
    forall x | x in listed ensures x in ids {
      var p :| 0 <= p < |listed| && listed[p] == x;
      var d := HintOf(desired, hints, p);
      assert ids[d] == x;
    }
    DistinctSize(ids);
    DistinctSize(listed);
    assert (set x | x in ids) == (set x | x in listed);
  }

  lemma {:induction false} InPlaceIffFulfilled(desired: seq<HintSpec>, hints: seq<Hint>)
    requires UniqueIds(Items(hints)) && Resolvable(desired)
    ensures InPlace(desired, hints) <==> forall d :: 0 <= d < |desired| ==> Fulfilled(desired, hints, d)
  {
    hide Fulfilled, PlacedAt;
    forall d | 0 <= d < |desired| ensures PlacedAt(desired, hints, d) <==> Fulfilled(desired, hints, d) {
      PlacedIffFulfilled(desired, hints, d);
    }
  }

  lemma {:induction false} OneToOneWants(desired: seq<HintSpec>, hints: seq<Hint>, x: int)
    requires UniqueIds(Items(hints)) && OneToOne(desired, hints)
    ensures x !in Unwanted(desired, hints)
  {
    hide Bind, Surplus, UniqueIds, Items, Wanted;
    SurplusIsUnbound(Wanted(desired), Items(hints), x);
    if HasId(hints, x) {
      var d :| 0 <= d < |desired| && IdOf(desired, hints, d) == x;
      assert Bind(Wanted(desired), Items(hints), d) == x;
    }
  }

  lemma {:induction false} OneToOneLeavesNone(desired: seq<HintSpec>, hints: seq<Hint>)
    requires UniqueIds(Items(hints)) && OneToOne(desired, hints)
    ensures Unwanted(desired, hints) == []
  {
    hide Unwanted, OneToOne, UniqueIds;
    if Unwanted(desired, hints) != [] {
      OneToOneWants(desired, hints, Unwanted(desired, hints)[0]);
    }
  }

  /** Hints are up to date exactly when the specification is valid, there is one hint for
      each desired index and no other, and each is what is asked for. */
  lemma {:induction false} UpToDateIffFaithful(desired: seq<HintSpec>, hints: seq<Hint>)
    requires UniqueIds(Items(hints))
    ensures HintsUpToDate(desired, hints) <==>
              && Unlockable(Prereqs(desired)) && OneToOne(desired, hints)
              && forall d :: 0 <= d < |desired| ==> Fulfilled(desired, hints, d)
  {
    hide Fulfilled, PlacedAt, OneToOne, Unlockable, Unwanted;
    if Unlockable(Prereqs(desired)) {
      ValidMeansResolvable(desired);
      InPlaceIffFulfilled(desired, hints);
      if HintsUpToDate(desired, hints) {
        UpToDateIsOneToOne(desired, hints);
      }
      if OneToOne(desired, hints) {
        OneToOneLeavesNone(desired, hints);
      }
    }
  }

  ghost predicate RequiresOnServer(hints: seq<Hint>, x: int, y: int) {
    exists p :: 0 <= p < |hints| && hints[p].id == x && y in PrereqsOf(hints[p].requirements)
  }

  /** A closed walk over the server's prerequisites, from an id back to itself. */
  ghost predicate IsServerCycle(hints: seq<Hint>, path: seq<int>) {
    && |path| >= 2 && path[0] == path[|path| - 1]
    && forall k :: 0 <= k < |path| - 1 ==> RequiresOnServer(hints, path[k], path[k + 1])
  }

  lemma {:induction false} RotateCycle(hints: seq<Hint>, path: seq<int>)
    requires IsServerCycle(hints, path)
    ensures IsServerCycle(hints, path[1..] + [path[1]])
  {
    hide RequiresOnServer;
    var turned := path[1..] + [path[1]];
    forall k | 0 <= k < |turned| - 1 ensures RequiresOnServer(hints, turned[k], turned[k + 1]) {
      if k == |path| - 2 {
        assert RequiresOnServer(hints, path[0], path[0 + 1]);
      } else {
        assert RequiresOnServer(hints, path[k + 1], path[k + 1 + 1]);
      }
    }
  }

  lemma {:induction false} UnlockedOnServerNeeds(hints: seq<Hint>, x: int, y: int, rounds: nat)
    requires UniqueIds(Items(hints)) && RequiresOnServer(hints, x, y) && x in UnlockedOnServer(hints, rounds)
    ensures rounds > 0 && y in UnlockedOnServer(hints, rounds - 1)
  {
    var p :| 0 <= p < |hints| && hints[p].id == x && y in PrereqsOf(hints[p].requirements);
    var q :| 0 <= q < |hints| && hints[q].id == x
             && forall z :: z in PrereqsOf(hints[q].requirements) ==> z in UnlockedOnServer(hints, rounds - 1);
    SameIdSamePlace(hints, p, q);
  }

  lemma {:induction false} SameIdSamePlace(hints: seq<Hint>, p: nat, q: nat)
    requires UniqueIds(Items(hints)) && p < |hints| && q < |hints| && hints[p].id == hints[q].id
    ensures p == q
  {
    assert Items(hints)[p].id == Items(hints)[q].id;
  }

  /** No hint on a cycle of the server's own graph ever unlocks. */
  lemma {:induction false} ServerCyclesNeverUnlock(hints: seq<Hint>, path: seq<int>, rounds: nat)
    requires UniqueIds(Items(hints)) && IsServerCycle(hints, path)
    ensures path[0] !in UnlockedOnServer(hints, rounds)
    decreases rounds
  {
    hide UnlockedOnServer, RequiresOnServer, UniqueIds;
    if path[0] in UnlockedOnServer(hints, rounds) {
      assert RequiresOnServer(hints, path[0], path[0 + 1]);
      UnlockedOnServerNeeds(hints, path[0], path[1], rounds);
      RotateCycle(hints, path);
      ServerCyclesNeverUnlock(hints, path[1..] + [path[1]], rounds - 1);
    }
  }

  lemma {:induction false} NoServerCycle(hints: seq<Hint>, path: seq<int>, rounds: nat)
    requires UniqueIds(Items(hints)) && forall p :: 0 <= p < |hints| ==> hints[p].id in UnlockedOnServer(hints, rounds)
    ensures !IsServerCycle(hints, path)
  {
    hide UnlockedOnServer;
    if IsServerCycle(hints, path) {
      assert RequiresOnServer(hints, path[0], path[0 + 1]);
      ServerCyclesNeverUnlock(hints, path, rounds);
    }
  }

  /** Hints that are up to date are a faithful copy of the specification: one hint per
      desired index and no others, each requiring exactly the hints of the indexes it
      should; no prerequisite dangles, a player can unlock every hint, and the server's
      own prerequisites form no cycle. */
  lemma {:induction false} ServerGraphIsFaithful(desired: seq<HintSpec>, hints: seq<Hint>)
    requires UniqueIds(Items(hints)) && HintsUpToDate(desired, hints)
    ensures |hints| == |desired| && OneToOne(desired, hints)
    ensures forall d :: 0 <= d < |desired| ==> Fulfilled(desired, hints, d)
    ensures forall p :: 0 <= p < |hints| ==>
              && (forall q :: q in PrereqsOf(hints[p].requirements) ==> HasId(hints, q))
              && hints[p].id in UnlockedOnServer(hints, |hints|)
    ensures forall path :: !IsServerCycle(hints, path)
  {
    hide IsServerCycle;
    UpToDateIsOneToOne(desired, hints);
    SameSize(desired, hints);
    hide Fulfilled;
    InPlaceIffFulfilled(desired, hints);
    forall p | 0 <= p < |hints|
      ensures forall q :: q in PrereqsOf(hints[p].requirements) ==> HasId(hints, q)
      ensures hints[p].id in UnlockedOnServer(hints, |hints|)
    {
      var d := HintOf(desired, hints, p);
      LookupFinds(hints, p);
      assert PlacedAt(desired, hints, d);
      UnlockingCarriesOver(desired, hints, d, |desired|);
      forall q | q in PrereqsOf(hints[p].requirements) ensures HasId(hints, q) {
        var e := PrereqIsDesired(desired, hints, d, q);
        assert PlacedAt(desired, hints, e);
        var p' := PlaceOf(desired, hints, e);
      }
    }
    forall path ensures !IsServerCycle(hints, path) {
      NoServerCycle(hints, path, |hints|);
    }
  }
}

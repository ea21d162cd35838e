/** What the reconcile loop as a whole guarantees, over one turn without failures and
    over every run of turns, failures and out-of-band edits. */
module LifecycleTheorems {
  import opened Wrappers
  import opened Ctfd
  import opened Keys
  import opened Matching
  import opened Conversion
  import opened FlagSync
  import opened HintSync
  import opened PrereqGraph
  import opened Lifecycle
  import HintExact
  import HintPhases
  import HintTheorems

  /** What the server guarantees of a challenge: unique ids of flags and of hints. */
  ghost predicate IdsUnique(ch: Challenge) {
    UniqueIds(FlagItems(ch.flags)) && Sound(ch.hints)
  }

  /** How a challenge may move while the specification stands: its type stays, and so
      does its state unless the user manages it; flags and hints make progress. */
  ghost predicate Course(p: Parameters, a: Challenge, b: Challenge) {
    && IdsUnique(b)
    && b.record.typ == a.record.typ
    && (p.state == "" ==> b.record.state == a.record.state)
    && (forall k :: Towards(Have(a.flags)[k], Have(b.flags)[k], Want(p.flags)[k]))
    && Progress(p.hints, a.hints, b.hints)
  }

  lemma {:induction false} CourseReflexive(p: Parameters, a: Challenge)
    ensures IdsUnique(a) ==> Course(p, a, a)
  {
    HintPhases.ProgressReflexive(p.hints, a.hints);
  }

  lemma {:induction false} CourseTransitive(p: Parameters, a: Challenge, b: Challenge, c: Challenge)
    ensures Course(p, a, b) && Course(p, b, c) ==> Course(p, a, c)
  {
    if Course(p, a, b) && Course(p, b, c) {
      hide Progress, IdsUnique, Have, Want;
      ProgressTransitive(p.hints, a.hints, b.hints, c.hints);
      forall k ensures Towards(Have(a.flags)[k], Have(c.flags)[k], Want(p.flags)[k]) {
        assert Towards(Have(a.flags)[k], Have(b.flags)[k], Want(p.flags)[k]);
        assert Towards(Have(b.flags)[k], Have(c.flags)[k], Want(p.flags)[k]);
      }
    }
  }

  // ---------- one update ----------

  ghost predicate OnlyChanges(a: map<int, Challenge>, b: map<int, Challenge>, cid: int) {
    cid in a && cid in b && b == a[cid := b[cid]]
  }

  /** The state an update would send is the one the server has, or is managed. */
  ghost predicate StateKnown(p: Parameters, r: Resource, ch: Challenge) {
    p.state == "" ==> r.status.state == ch.record.state
  }

  lemma {:induction false} PatchEffect(p: Parameters, r: Resource, w: World, cid: int)
    requires cid in w.challenges
    ensures var (w', ok) := PatchChallengeCall(p, r.status.state, w, cid);
            && OnlyChanges(w.challenges, w'.challenges, cid)
            && var a, b := w.challenges[cid], w'.challenges[cid];
            && b.flags == a.flags && b.hints == a.hints && b.record.typ == a.record.typ
            && (StateKnown(p, r, a) && p.state == "" ==> b.record.state == a.record.state)
            && (ok ==> (IsUpToDate(p, b.record, b.record.requirements) <==> RightType(p, a.record.typ)))
            && (w.line.Quiet() ==> ok && w'.line.Quiet())
  {
    PatchConvergesIffTypeMatches(p, w.challenges[cid].record, r.status.state, w.line.Next().filler);
    HintTheorems.QuietStays(w.line, PatchChallenge(cid));
  }

  lemma {:induction false} FlagsEffect(p: Parameters, w: World, cid: int, deletes: seq<int>)
    requires cid in w.challenges && UniqueIds(FlagItems(w.challenges[cid].flags))
    requires IsFlagOrder(p.flags, w.challenges[cid].flags, deletes)
    ensures var (w', ok) := SyncFlagsOf(p.flags, w, cid, deletes);
            && OnlyChanges(w.challenges, w'.challenges, cid)
            && var a, b := w.challenges[cid], w'.challenges[cid];
            && b == a.(flags := b.flags) && UniqueIds(FlagItems(b.flags))
            && (forall k :: Towards(Have(a.flags)[k], Have(b.flags)[k], Want(p.flags)[k]))
            && (ok ==> FlagsUpToDate(p.flags, b.flags))
            && (w.line.Quiet() ==> ok && w'.line.Quiet())
  {
    hide SyncFlags;
    SyncFlagsProgress(p.flags, TakenFlags(w.challenges, cid), FlagState(w.challenges[cid].flags, w.line), deletes);
  }

  lemma {:induction false} HintsEffect(p: Parameters, w: World, cid: int, deletes: seq<int>)
    requires cid in w.challenges && Sound(w.challenges[cid].hints)
    requires IsDeleteOrder(p.hints, w.challenges[cid].hints, deletes)
    ensures var (w', ok) := SyncHintsOf(p.hints, w, cid, deletes);
            && OnlyChanges(w.challenges, w'.challenges, cid)
            && var a, b := w.challenges[cid], w'.challenges[cid];
            && b == a.(hints := b.hints) && Sound(b.hints)
            && (Progress(p.hints, a.hints, b.hints) <==> !Spoiled(p.hints, a.hints, w.line))
            && (ok ==> (HintsUpToDate(p.hints, b.hints) <==> !Spoiled(p.hints, a.hints, w.line)))
            && (w.line.Quiet() ==> w'.line.Quiet() && (ok <==> Unlockable(Prereqs(p.hints))))
  {
    hide Progress, HintsUpToDate, Unlockable, Spoiled;
    var taken, s := TakenHints(w.challenges, cid), HintState(w.challenges[cid].hints, w.line);
    HintExact.SyncProgress(p.hints, taken, s, deletes);
    if w.line.Quiet() {
      if Unlockable(Prereqs(p.hints)) {
        HintTheorems.SyncQuiet(p.hints, taken, s, deletes);
      } else {
        HintTheorems.WritesExactlyOnDrift(p.hints, taken, s, deletes);
      }
    }
  }

  /** The hints are synchronised, and the conversation left for that spoils them. */
  ghost predicate UpdateSpoiled(p: Parameters, r: Resource, w: World, o: Orders, cid: int)
    requires cid in w.challenges
  {
    var (w1, patched) := PatchChallengeCall(p, r.status.state, w, cid);
    var (w2, flagged) := SyncFlagsOf(p.flags, w1, cid, o.flags);
    patched && flagged && Spoiled(p.hints, w.challenges[cid].hints, w2.line)
  }

  lemma {:induction false} PatchedOnCourse(p: Parameters, a: Challenge, b: Challenge)
    requires IdsUnique(a) && b.flags == a.flags && b.hints == a.hints && b.record.typ == a.record.typ
    requires p.state == "" ==> b.record.state == a.record.state
    ensures Course(p, a, b) && IdsUnique(b)
  {
    HintPhases.ProgressReflexive(p.hints, a.hints);
  }

  lemma {:induction false} FlaggedOnCourse(p: Parameters, a: Challenge, b: Challenge)
    requires IdsUnique(a) && b == a.(flags := b.flags) && UniqueIds(FlagItems(b.flags))
    requires forall k :: Towards(Have(a.flags)[k], Have(b.flags)[k], Want(p.flags)[k])
    ensures Course(p, a, b) && IdsUnique(b)
  {
    HintPhases.ProgressReflexive(p.hints, a.hints);
  }

  /** Only the hints are still to come: the course is kept exactly if they progress. */
  lemma {:induction false} HintedOnCourse(p: Parameters, a: Challenge, b: Challenge, c: Challenge)
    requires Course(p, a, b) && b.hints == a.hints && c == b.(hints := c.hints) && Sound(c.hints)
    ensures Course(p, a, c) <==> Progress(p.hints, b.hints, c.hints)
    ensures IdsUnique(c)
  {
  }

  /** Whatever calls fail, an update touches one challenge only, and keeps its course
      exactly if its hints are not spoiled. */
  lemma {:induction false} UpdateOnCourse(p: Parameters, r: Resource, w: World, o: Orders, cid: int)
    requires Atoi(r.name) == Some(cid) && cid in w.challenges
    requires IdsUnique(w.challenges[cid]) && ValidOrders(p, w.challenges[cid], o)
    requires StateKnown(p, r, w.challenges[cid])
    ensures var w' := Update(p, r, w, o).0;
            && OnlyChanges(w.challenges, w'.challenges, cid) && IdsUnique(w'.challenges[cid])
            && (Course(p, w.challenges[cid], w'.challenges[cid]) <==> !UpdateSpoiled(p, r, w, o, cid))
  {
    hide PatchChallengeCall, SyncFlagsOf, SyncHintsOf, IsUpToDate, Have, Want, FlagsUpToDate, HintsUpToDate, Progress,
         Course, Surplus, UniqueIds, Spoiled;
    var a := w.challenges[cid];
    var (w1, patched) := PatchChallengeCall(p, r.status.state, w, cid);
    PatchEffect(p, r, w, cid);
    PatchedOnCourse(p, a, w1.challenges[cid]);
    if patched {
      var (w2, flagged) := SyncFlagsOf(p.flags, w1, cid, o.flags);
      FlagsEffect(p, w1, cid, o.flags);
      FlaggedOnCourse(p, w1.challenges[cid], w2.challenges[cid]);
      CourseTransitive(p, a, w1.challenges[cid], w2.challenges[cid]);
      if flagged {
        HintsEffect(p, w2, cid, o.hints);
        HintedOnCourse(p, a, w2.challenges[cid], SyncHintsOf(p.hints, w2, cid, o.hints).0.challenges[cid]);
      }
    }
  }

  /** Without failures an update reaches all that it can reach: fields and flags in any
      case, save a type that differs, and hints if they can be unlocked and are not
      spoiled. */
  lemma {:induction false} UpdateConverges(p: Parameters, r: Resource, w: World, o: Orders, cid: int)
    requires Atoi(r.name) == Some(cid) && cid in w.challenges && w.line.Quiet()
    requires IdsUnique(w.challenges[cid]) && ValidOrders(p, w.challenges[cid], o)
    ensures var w' := Update(p, r, w, o).0;
            && w'.line.Quiet() && cid in w'.challenges
            && FlagsUpToDate(p.flags, w'.challenges[cid].flags)
            && (IsUpToDate(p, w'.challenges[cid].record, w'.challenges[cid].record.requirements) <==>
                RightType(p, w.challenges[cid].record.typ))
            && (InSync(p, w'.challenges[cid], w'.challenges[cid].record.requirements) <==>
                && RightType(p, w.challenges[cid].record.typ)
                && Unlockable(Prereqs(p.hints)) && !UpdateSpoiled(p, r, w, o, cid))
  {
    hide PatchChallengeCall, SyncFlagsOf, SyncHintsOf, IsUpToDate, Have, Want, FlagsUpToDate, Progress, UniqueIds,
         Unlockable, Surplus, HintsUpToDate, Spoiled;
    var (w1, patched) := PatchChallengeCall(p, r.status.state, w, cid);
    PatchEffect(p, r, w, cid);
    FlagsEffect(p, w1, cid, o.flags);
    var (w2, flagged) := SyncFlagsOf(p.flags, w1, cid, o.flags);
    HintsEffect(p, w2, cid, o.hints);
    UpToDateUnlocks(p.hints, SyncHintsOf(p.hints, w2, cid, o.hints).0.challenges[cid].hints);
  }

  lemma {:induction false} UpToDateUnlocks(desired: seq<HintSpec>, hints: seq<Hint>)
    ensures HintsUpToDate(desired, hints) ==> Unlockable(Prereqs(desired))
  {
  }

  // ---------- one observation ----------

  lemma {:induction false} RequirementsOnlyIfSpecified(p: Parameters, ch: Record, req: Option<Requirements>,
      req': Option<Requirements>)
    requires p.requirements.None?
    ensures IsUpToDate(p, ch, req) <==> IsUpToDate(p, ch, req')
  {
  }

  /** Without failures Observe tells the truth about a live challenge. */
  lemma {:induction false} ObserveQuiet(p: Parameters, r: Resource, w: World, cid: int)
    requires Atoi(r.name) == Some(cid) && cid in w.challenges && w.line.Quiet()
    ensures var (r', w', seen) := Observe(p, r, w);
            && r' == Resource(r.name, StatusOf(cid, w.challenges[cid]))
            && w'.challenges == w.challenges && w'.line.Quiet()
            && seen == Present(InSync(p, w.challenges[cid], w.challenges[cid].record.requirements))
  {
    var ch := w.challenges[cid];
    var line0 := w.line.Read();
    assert w.line.Next().fault == Served && line0.Quiet() && line0.Next().fault == Served;
    var line1 := if p.requirements.Some? then line0.Read() else line0;
    ReadManyKeepsLog(line1, 1);
    ReadManyKeepsLog(line1.ReadMany(1).0, 1 + |ch.hints|);
    if p.requirements.None? {
      RequirementsOnlyIfSpecified(p, ch.record, None, ch.record.requirements);
    }
  }

  /** Whatever fails, Observe changes nothing on the server, and when it finds the
      challenge it has recorded its present state. */
  lemma {:induction false} ObserveKeeps(p: Parameters, r: Resource, w: World)
    ensures var (r', w', seen) := Observe(p, r, w);
            && w'.challenges == w.challenges && r'.name == r.name
            && (seen == Absent <==> Atoi(r.name).None? || w.line.Next().fault != Served
                                    || Atoi(r.name).value !in w.challenges)
            && (seen.Present? ==> r'.status == StatusOf(Atoi(r.name).value, w.challenges[Atoi(r.name).value]))
            && (seen == Absent && Atoi(r.name).Some? ==> w'.line == w.line.Read())
            && (seen == Absent ==> r' == r)
  {
  }

  // ---------- one reconcile ----------

  /** The reconcile updates the challenge, and its hints are spoiled. */
  ghost predicate ReconcileSpoiled(p: Parameters, r: Resource, w: World, o: Orders) {
    var (r1, w1, seen) := Observe(p, r, w);
    && seen == Present(false) && Atoi(r.name).Some? && Atoi(r.name).value in w1.challenges
    && UpdateSpoiled(p, r1, w1, o, Atoi(r.name).value)
  }

  /** A reconcile never spoils hints whose titles agree. */
  lemma {:induction false} TitlesAgreeReconcile(p: Parameters, r: Resource, w: World, o: Orders)
    ensures ReconcileSpoiled(p, r, w, o) ==>
              && Atoi(r.name).Some? && Atoi(r.name).value in w.challenges
              && !TitlesAgree(p.hints, w.challenges[Atoi(r.name).value].hints)
  {
    hide Observe, SyncFlags, Spoiled, TitlesAgree;
    ObserveKeeps(p, r, w);
    if ReconcileSpoiled(p, r, w, o) {
      var (r1, w1, _) := Observe(p, r, w);
      var cid := Atoi(r.name).value;
      var w2 := SyncFlagsOf(p.flags, PatchChallengeCall(p, r1.status.state, w1, cid).0, cid, o.flags).0;
      HintTheorems.TitlesAgreeUnspoiled(p.hints, w.challenges[cid].hints, w2.line);
    }
  }

  /** One reconcile without failures brings an existing challenge up to date, and every
      later Observe agrees, exactly when its type is the desired one, the hints can all
      be unlocked and they are not spoiled: an update never sends the type and refuses
      other hints. */
  lemma {:induction false} ReconcileConverges(p: Parameters, r: Resource, w: World, o: Orders, cid: int, later: Line)
    requires Atoi(r.name) == Some(cid) && cid in w.challenges && w.line.Quiet() && later.Quiet()
    requires IdsUnique(w.challenges[cid]) && ValidOrders(p, w.challenges[cid], o)
    ensures var (r', w') := Reconcile(p, r, w, o);
            && r'.name == r.name && w'.line.Quiet()
            && Observe(p, r', World(w'.challenges, later)).2
               == Present(&& RightType(p, w.challenges[cid].record.typ)
                          && Unlockable(Prereqs(p.hints)) && !ReconcileSpoiled(p, r, w, o))
  {
    hide Update, Observe, IdsUnique, ValidOrders, Course, HintsUpToDate, FlagsUpToDate, UpdateSpoiled, Unlockable;
    ObserveQuiet(p, r, w, cid);
    var (r1, w1, seen) := Observe(p, r, w);
    if seen == Present(false) {
      UpdateConverges(p, r1, w1, o, cid);
      ObserveQuiet(p, r1, World(Update(p, r1, w1, o).0.challenges, later), cid);
    } else {
      ObserveQuiet(p, r1, World(w1.challenges, later), cid);
      InSyncMeans(p, w.challenges[cid]);
    }
  }

  lemma {:induction false} CanOnlySpoilIf(p: Parameters, r: Resource, w: World, o: Orders, cid: int)
    requires Atoi(r.name) == Some(cid) && cid in w.challenges
    ensures ReconcileSpoiled(p, r, w, o) ==> CanSpoil(p.hints, w.challenges[cid].hints)
  {
    hide Observe, SyncFlags, Spoiled, CanSpoil;
    ObserveKeeps(p, r, w);
    if ReconcileSpoiled(p, r, w, o) {
      var (r1, w1, _) := Observe(p, r, w);
      var w2 := SyncFlagsOf(p.flags, PatchChallengeCall(p, r1.status.state, w1, cid).0, cid, o.flags).0;
      HintTheorems.SpoiledMeansCan(p.hints, w.challenges[cid].hints, w2.line);
    }
  }

  /** How many answers an observation takes at most, and how many more precede the hints
      in an update. */
  function ReadsAtMost(ch: Challenge): nat {
    4 + |ch.hints|
  }

  function UpdatesAtMost(p: Parameters, o: Orders): nat {
    2 + |p.flags| + |o.flags|
  }

  lemma {:induction false} KeepsFewer(line: Line, n: nat, m: nat)
    requires line.Keeps(n) && m <= n
    ensures line.Keeps(m)
  {
  }

  lemma {:induction false} ObserveLineKeeps(p: Parameters, r: Resource, w: World, cid: int, n: nat)
    requires Atoi(r.name) == Some(cid) && cid in w.challenges
    requires w.line.Keeps(ReadsAtMost(w.challenges[cid]) + n)
    ensures Observe(p, r, w).1.line.Keeps(n)
  {
    hide IsUpToDate, InSync, Line.Keeps;
    var hints := w.challenges[cid].hints;
    var line0 := w.line.Read();
    KeepsOn(w.line, 4 + |hints| + n, PostFlag);
    KeepsOn(line0, 3 + |hints| + n, PostFlag);
    KeepsFewer(line0, 3 + |hints| + n, 2 + |hints| + n);
    var line1 := if p.requirements.Some? then line0.Read() else line0;
    ReadsKeep(line1, 1, 2 + |hints| + n);
    ReadsKeep(line1.ReadMany(1).0, 1 + |hints|, 1 + |hints| + n);
  }

  lemma {:induction false} UpdateLineKeeps(p: Parameters, r: Resource, w: World, o: Orders, cid: int, n: nat)
    requires cid in w.challenges && w.line.Keeps(UpdatesAtMost(p, o) + n)
    ensures var (w1, patched) := PatchChallengeCall(p, r.status.state, w, cid);
            var (w2, flagged) := SyncFlagsOf(p.flags, w1, cid, o.flags);
            patched && flagged && w2.line.Keeps(n)
  {
    hide SyncFlags, Line.Keeps, IsUpToDate;
    KeepsOn(w.line, UpdatesAtMost(p, o) + n, PatchChallenge(cid));
    var w1 := PatchChallengeCall(p, r.status.state, w, cid).0;
    FlagSyncKeeps(p.flags, TakenFlags(w1.challenges, cid), FlagState(w1.challenges[cid].flags, w1.line), o.flags, n);
  }

  /** A server that keeps every title, and fails no call, spoils a challenge that can be
      spoiled. */
  lemma {:induction false} KeeperSpoilsReconcile(p: Parameters, r: Resource, m: map<int, Challenge>, o: Orders,
      cid: int) returns (line: Line)
    requires Atoi(r.name) == Some(cid) && cid in m
    requires IdsUnique(m[cid])
    requires Unlockable(Prereqs(p.hints)) && CanSpoil(p.hints, m[cid].hints)
    ensures line.Quiet() && ReconcileSpoiled(p, r, World(m, line), o)
  {
    hide Unlockable, CanSpoil, Spoiled, Line.Keeps, Line.Quiet, Observe, PatchChallengeCall, SyncFlags, IsUpToDate,
         FlagsUpToDate, HintsUpToDate, ReadsAtMost, UpdatesAtMost;
    var n := HintTheorems.KeeperSpoils(p.hints, m[cid].hints);
    line := HintTheorems.Keeper(ReadsAtMost(m[cid]) + (UpdatesAtMost(p, o) + n));
    var w := World(m, line);
    ObserveQuiet(p, r, w, cid);
    ObserveLineKeeps(p, r, w, cid, UpdatesAtMost(p, o) + n);
    CanSpoilIsDrift(p, m[cid]);
    var (r1, w1, seen) := Observe(p, r, w);
    UpdateLineKeeps(p, r1, w1, o, cid, n);
  }

  lemma {:induction false} CanSpoilIsDrift(p: Parameters, ch: Challenge)
    requires IdsUnique(ch)
    ensures CanSpoil(p.hints, ch.hints) ==> !InSync(p, ch, ch.record.requirements)
  {
    hide CanSpoil, Unlockable, InPlace, Unwanted, FlagsUpToDate, IsUpToDate, Sound;
    HintTheorems.SpoiledMeansCan(p.hints, ch.hints, Line([], []));
  }

  /** One reconcile brings the challenge up to date with every server that fails no call,
      exactly if the type is right, the hints can be unlocked, and no hint that needs a
      patch is mis-titled. All of this can be known before the reconcile. */
  lemma {:induction false} ReconcileOnEveryServerIff(p: Parameters, r: Resource, m: map<int, Challenge>, cid: int)
    requires Atoi(r.name) == Some(cid) && cid in m && IdsUnique(m[cid])
    ensures (forall line: Line, o: Orders, later: Line ::
               line.Quiet() && later.Quiet() && ValidOrders(p, m[cid], o) ==> EndsUpToDate(p, r, m, line, o, later))
       <==> && RightType(p, m[cid].record.typ) && Unlockable(Prereqs(p.hints))
            && !CanSpoil(p.hints, m[cid].hints)
  {
    hide Unlockable, CanSpoil, Line.Quiet, Observe, Reconcile, ReconcileSpoiled, IdsUnique, ValidOrders;
    forall line: Line, o: Orders, later: Line | line.Quiet() && later.Quiet() && ValidOrders(p, m[cid], o)
      ensures EndsUpToDate(p, r, m, line, o, later) <==>
                && RightType(p, m[cid].record.typ) && Unlockable(Prereqs(p.hints))
                && !ReconcileSpoiled(p, r, World(m, line), o)
      ensures ReconcileSpoiled(p, r, World(m, line), o) ==> CanSpoil(p.hints, m[cid].hints)
    {
      ReconcileConverges(p, r, World(m, line), o, cid, later);
      CanOnlySpoilIf(p, r, World(m, line), o, cid);
    }
    var o := SomeOrders(p, m[cid]);
    var quiet := HintTheorems.Keeper(0);
    if Unlockable(Prereqs(p.hints)) && CanSpoil(p.hints, m[cid].hints) {
      var line := KeeperSpoilsReconcile(p, r, m, o, cid);
      assert !EndsUpToDate(p, r, m, line, o, quiet);
    } else {
      assert EndsUpToDate(p, r, m, quiet, o, quiet) ==>
               RightType(p, m[cid].record.typ) && Unlockable(Prereqs(p.hints));
    }
  }

  /** What a later observation reports after one reconcile is that all is up to date. */
  ghost predicate EndsUpToDate(p: Parameters, r: Resource, m: map<int, Challenge>, line: Line, o: Orders, later: Line) {
    var (r', w') := Reconcile(p, r, World(m, line), o);
    Observe(p, r', World(w'.challenges, later)).2 == Present(true)
  }

  lemma {:induction false} SomeOrders(p: Parameters, ch: Challenge) returns (o: Orders)
    ensures ValidOrders(p, ch, o)
  {
    o := Orders(SurplusFlags(p.flags, ch.flags), Unwanted(p.hints, ch.hints));
  }

  lemma {:induction false} InSyncMeans(p: Parameters, ch: Challenge)
    ensures InSync(p, ch, ch.record.requirements) ==>
              RightType(p, ch.record.typ) && Unlockable(Prereqs(p.hints))
  {
  }

  /** A second challenge is created for a live one exactly when the read of the live
      one fails and the creation then takes effect. */
  lemma {:induction false} SecondChallengeIffReadFails(p: Parameters, r: Resource, w: World, o: Orders, cid: int)
    requires Atoi(r.name) == Some(cid) && cid in w.challenges
    ensures var (r', w') := Reconcile(p, r, w, o);
            (exists c :: c in w'.challenges && c !in w.challenges) <==>
              w.line.Next().fault != Served && w.line.Read().Next().fault != Refused
  {
    hide Update, Observe;
    ObserveKeeps(p, r, w);
    var (r1, w1, seen) := Observe(p, r, w);
    if seen == Absent {
      var x := FreshId(w.challenges.Keys, w1.line.Next().id);
      assert x !in w.challenges;
    } else if seen == Present(false) {
      UpdateKeepsKeys(p, r1, w1, o);
    }
  }

  lemma {:induction false} UpdateKeepsKeys(p: Parameters, r: Resource, w: World, o: Orders)
    ensures Update(p, r, w, o).0.challenges.Keys == w.challenges.Keys
  {
    hide SyncFlags, SyncHints;
    if Atoi(r.name).Some? {
      var cid := Atoi(r.name).value;
      var (w1, patched) := PatchChallengeCall(p, r.status.state, w, cid);
      if patched {
        assert w1.challenges.Keys == w.challenges.Keys;
        var w2 := SyncFlagsOf(p.flags, w1, cid, o.flags).0;
        assert w2.challenges.Keys == w1.challenges.Keys;
        assert SyncHintsOf(p.hints, w2, cid, o.hints).0.challenges.Keys == w2.challenges.Keys;
      }
    }
  }

  /** From nothing: the first reconcile creates the challenge under a fresh id and
      names the resource after it; the next Observe reports drift exactly when flags or
      hints are wanted; and after one more reconcile it is up to date exactly when the
      hints can all be unlocked. */
  lemma {:induction false} LifecycleFromAbsent(p: Parameters, r: Resource, w: World, o: Orders, later: Line, o': Orders)
    requires w.line.Quiet() && later.Quiet()
    requires Atoi(r.name).None? || Atoi(r.name).value !in w.challenges
    requires var cid := CreatedId(r, w); cid <= MAX_INT
    requires ValidOrders(p, Challenge(Posted(PostParams(p), CreateReply(r, w).filler), [], []), o')
    ensures var cid := CreatedId(r, w);
            var (r1, w1) := Reconcile(p, r, w, o);
            && cid !in w.challenges && w1.challenges.Keys == w.challenges.Keys + {cid}
            && r1.name == Itoa(cid) && Atoi(r1.name) == Some(cid)
            && Observe(p, r1, World(w1.challenges, later)).2 == Present(p.flags == [] && p.hints == [])
            && var (r2, w2) := Reconcile(p, r1, World(w1.challenges, later), o');
               Observe(p, r2, World(w2.challenges, later)).2 == Present(Unlockable(Prereqs(p.hints)))
  {
    hide Update, IdsUnique, ValidOrders, InSync, Posted, UpdateSpoiled, TitlesAgree;
    var cid := CreatedId(r, w);
    AtoiInvertsItoa(cid);
    var (r1, w1) := Reconcile(p, r, w, o);
    var ch := Challenge(Posted(PostParams(p), CreateReply(r, w).filler), [], []);
    assert w1.challenges == w.challenges[cid := ch];
    ObserveQuiet(p, r1, World(w1.challenges, later), cid);
    FreshChallenge(p, CreateReply(r, w).filler);
    TitlesAgreeReconcile(p, r1, World(w1.challenges, later), o');
    ReconcileConverges(p, r1, World(w1.challenges, later), o', cid, later);
  }

  /** The answer to the creation: the first one if there is no numeric name to look
      up, else the second. */
  function CreateReply(r: Resource, w: World): Reply {
    if Atoi(r.name).None? then w.line.Next() else w.line.Read().Next()
  }

  function CreatedId(r: Resource, w: World): int {
    FreshId(w.challenges.Keys, CreateReply(r, w).id)
  }

  lemma {:induction false} FreshChallenge(p: Parameters, filler: Record)
    ensures var ch := Challenge(Posted(PostParams(p), filler), [], []);
            && IdsUnique(ch) && TitlesAgree(p.hints, []) && RightType(p, ch.record.typ)
            && (InSync(p, ch, ch.record.requirements) <==> p.flags == [] && p.hints == [])
  {
    hide IsUpToDate, HintsUpToDate, FlagsUpToDate;
    PostConverges(p, filler);
    NothingWanted(p);
  }

  lemma {:induction false} NothingWanted(p: Parameters)
    ensures HintsUpToDate(p.hints, []) <==> p.hints == []
    ensures FlagsUpToDate(p.flags, []) <==> p.flags == []
  {
    UpToDateMeansMatched(p.flags, []);
    if p.hints == [] {
      assert Unlockable(Prereqs(p.hints));
    } else {
      assert InPlace(p.hints, []) ==> PlacedAt(p.hints, [], 0);
    }
    if p.flags != [] {
      KeptStep(p.flags, [], 0);
    } else {
      assert FlagsUpToDate(p.flags, []);
    }
  }

  // ---------- every run of the loop ----------

  datatype System = System(resource: Resource, challenges: map<int, Challenge>)

  /** A turn of the loop with whatever answers the server gives, or an edit of the
      server by somebody else between two turns. */
  datatype Step = Turn(replies: seq<Reply>, orders: Orders) | Edit

  ghost predicate IsStep(p: Parameters, a: System, s: Step, b: System) {
    match s
    case Edit => b.resource == a.resource
    case Turn(replies, orders) =>
      var (r, w) := Reconcile(p, a.resource, World(a.challenges, Line(replies, [])), orders);
      && b == System(r, w.challenges)
      && forall cid :: Atoi(a.resource.name) == Some(cid) && cid in a.challenges ==>
           ValidOrders(p, a.challenges[cid], orders)
  }

  ghost predicate IsLoop(p: Parameters, steps: seq<Step>, trace: seq<System>) {
    && |trace| == |steps| + 1
    && forall t :: 0 <= t < |steps| ==> IsStep(p, trace[t], steps[t], trace[t + 1])
  }

  ghost predicate NoEdits(steps: seq<Step>, i: nat, j: nat) {
    j <= |steps| && forall t :: i <= t < j ==> steps[t].Turn?
  }

  /** What every turn keeps, failed or not, spoiled or not. */
  lemma {:induction false} TurnKeeps(p: Parameters, a: System, s: Step, b: System, c: int)
    requires s.Turn? && IsStep(p, a, s, b) && c in a.challenges
    ensures c in b.challenges && b.challenges[c].record.typ == a.challenges[c].record.typ
    ensures p.state == "" ==> b.challenges[c].record.state == a.challenges[c].record.state
  {
    hide Update, Observe, InSync, ValidOrders;
    var r, w := a.resource, World(a.challenges, Line(s.replies, []));
    ObserveKeeps(p, r, w);
    var (r1, w1, seen) := Observe(p, r, w);
    if seen == Present(false) {
      UpdateKeeps(p, r1, w1, s.orders, c);
    }
  }

  lemma {:induction false} UpdateKeeps(p: Parameters, r: Resource, w: World, o: Orders, c: int)
    requires Atoi(r.name).Some? && Atoi(r.name).value in w.challenges && c in w.challenges
    requires r.status.state == w.challenges[Atoi(r.name).value].record.state
    ensures var w' := Update(p, r, w, o).0;
            && c in w'.challenges && w'.challenges[c].record.typ == w.challenges[c].record.typ
            && (p.state == "" ==> w'.challenges[c].record.state == w.challenges[c].record.state)
  {
    hide PatchChallengeCall, SyncFlags, SyncHints;
    var cid := Atoi(r.name).value;
    PatchEffect(p, r, w, cid);
  }

  /** Over any run of turns the type of a challenge stays as it was, and so does its
      state if the user leaves that unmanaged. This needs nothing of the server's flags
      and hints. */
  lemma {:induction false} LoopKeeps(p: Parameters, steps: seq<Step>, trace: seq<System>, i: nat, j: nat, c: int)
    requires IsLoop(p, steps, trace) && i <= j && NoEdits(steps, i, j) && c in trace[i].challenges
    ensures c in trace[j].challenges
    ensures trace[j].challenges[c].record.typ == trace[i].challenges[c].record.typ
    ensures p.state == "" ==> trace[j].challenges[c].record.state == trace[i].challenges[c].record.state
    decreases j
  {
    hide IsStep;
    if i < j {
      LoopKeeps(p, steps, trace, i, j - 1, c);
      assert IsStep(p, trace[j - 1], steps[j - 1], trace[j - 1 + 1]);
      TurnKeeps(p, trace[j - 1], steps[j - 1], trace[j], c);
    }
  }

  ghost predicate AllUnique(m: map<int, Challenge>) {
    forall c :: c in m ==> IdsUnique(m[c])
  }

  /** Every challenge is still there and has kept its course. */
  ghost predicate AllOnCourse(p: Parameters, a: map<int, Challenge>, b: map<int, Challenge>) {
    forall c :: c in a ==> c in b && Course(p, a[c], b[c])
  }

  ghost predicate TurnSpoiled(p: Parameters, a: System, s: Step) {
    s.Turn? && ReconcileSpoiled(p, a.resource, World(a.challenges, Line(s.replies, [])), s.orders)
  }

  /** Ids stay unique in any turn, and all keep their course exactly if it spoils none. */
  lemma {:induction false} TurnOnCourse(p: Parameters, a: System, s: Step, b: System)
    requires s.Turn? && IsStep(p, a, s, b) && AllUnique(a.challenges)
    ensures AllUnique(b.challenges)
    ensures AllOnCourse(p, a.challenges, b.challenges) <==> !TurnSpoiled(p, a, s)
  {
    hide Update, Observe, Course, IdsUnique, InSync, ValidOrders, UpdateSpoiled;
    forall c | c in a.challenges ensures Course(p, a.challenges[c], a.challenges[c]) {
      CourseReflexive(p, a.challenges[c]);
    }
    var r, w := a.resource, World(a.challenges, Line(s.replies, []));
    ObserveKeeps(p, r, w);
    var (r1, w1, seen) := Observe(p, r, w);
    if seen == Absent {
      FreshChallenge(p, w1.line.Next().filler);
    } else if seen == Present(false) {
      var cid := Atoi(r.name).value;
      UpdateOnCourse(p, r1, w1, s.orders, cid);
    }
  }

  lemma {:induction false} LoopKeepsUnique(p: Parameters, steps: seq<Step>, trace: seq<System>, i: nat, j: nat)
    requires IsLoop(p, steps, trace) && i <= j && NoEdits(steps, i, j) && AllUnique(trace[i].challenges)
    ensures AllUnique(trace[j].challenges)
    decreases j
  {
    hide IsStep, IdsUnique, TurnSpoiled;
    if i < j {
      LoopKeepsUnique(p, steps, trace, i, j - 1);
      assert IsStep(p, trace[j - 1], steps[j - 1], trace[j - 1 + 1]);
      TurnOnCourse(p, trace[j - 1], steps[j - 1], trace[j]);
    }
  }

  /** The turn finds no challenge under the resource's name, because that is not a number,
      because the read fails or because nothing is there, and its creation takes effect. */
  ghost predicate TurnCreates(a: System, s: Step) {
    s.Turn? &&
    var line, cid := Line(s.replies, []), Atoi(a.resource.name);
    if cid.None? then line.Next().fault != Refused
    else (line.Next().fault != Served || cid.value !in a.challenges) && line.Read().Next().fault != Refused
  }

  lemma {:induction false} TurnCreatesOne(p: Parameters, a: System, s: Step, b: System)
    requires s.Turn? && IsStep(p, a, s, b)
    ensures a.challenges.Keys <= b.challenges.Keys
    ensures |b.challenges| == |a.challenges| + if TurnCreates(a, s) then 1 else 0
  {
    hide Update, Observe, InSync, ValidOrders;
    var r, w := a.resource, World(a.challenges, Line(s.replies, []));
    ObserveKeeps(p, r, w);
    var (r1, w1, seen) := Observe(p, r, w);
    if Atoi(r.name).None? {
      NoNameNoRead(p, r, w);
    }
    if seen == Absent {
      CreateAdds(p, r1, w1);
    } else if seen == Present(false) {
      UpdateKeepsKeys(p, r1, w1, s.orders);
      SameKeysSameSize(a.challenges, b.challenges);
    }
  }

  lemma {:induction false} CreateAdds(p: Parameters, r: Resource, w: World)
    ensures var m := Create(p, r, w).1.challenges;
            && w.challenges.Keys <= m.Keys
            && |m| == |w.challenges| + if w.line.Next().fault != Refused then 1 else 0
  {
    var m := Create(p, r, w).1.challenges;
    if w.line.Next().fault != Refused {
      var x := FreshId(w.challenges.Keys, w.line.Next().id);
      assert m.Keys == w.challenges.Keys + {x};
      assert |m| == |m.Keys|;
      assert |w.challenges| == |w.challenges.Keys|;
    }
  }

  lemma {:induction false} NoNameNoRead(p: Parameters, r: Resource, w: World)
    requires Atoi(r.name).None?
    ensures Observe(p, r, w) == (r, w, Absent)
  {
  }

  lemma {:induction false} SameKeysSameSize(a: map<int, Challenge>, b: map<int, Challenge>)
    requires a.Keys == b.Keys
    ensures |a| == |b|
  {
    assert |a| == |a.Keys| && |b| == |b.Keys|;
  }

  /** How many of the turns from i to j create a challenge. */
  ghost function Creations(steps: seq<Step>, trace: seq<System>, i: nat, j: nat): nat
    requires j <= |steps| < |trace|
  {
    if j <= i then 0 else Creations(steps, trace, i, j - 1) + if TurnCreates(trace[j - 1], steps[j - 1]) then 1 else 0
  }

  /** Over any run of turns exactly as many challenges appear as turns saw none and had
      their creation take effect, and none disappears; a creation whose reply is lost
      counts, and so does the one that follows it. */
  lemma {:induction false} LoopCreates(p: Parameters, steps: seq<Step>, trace: seq<System>, i: nat, j: nat)
    requires IsLoop(p, steps, trace) && i <= j && NoEdits(steps, i, j)
    ensures trace[i].challenges.Keys <= trace[j].challenges.Keys
    ensures |trace[j].challenges| == |trace[i].challenges| + Creations(steps, trace, i, j)
    decreases j
  {
    hide IsStep, TurnCreates;
    if i < j {
      LoopCreates(p, steps, trace, i, j - 1);
      assert IsStep(p, trace[j - 1], steps[j - 1], trace[j - 1 + 1]);
      TurnCreatesOne(p, trace[j - 1], steps[j - 1], trace[j]);
    }
  }

  ghost predicate LoopUnspoiled(p: Parameters, steps: seq<Step>, trace: seq<System>, i: nat, j: nat) {
    forall t :: i <= t < j && t < |steps| && t < |trace| ==> !TurnSpoiled(p, trace[t], steps[t])
  }

  /** Between edits, whatever calls fail and however often the loop turns, every
      challenge keeps its course, provided no turn spoils hints. */
  lemma {:induction false} LoopOnCourse(p: Parameters, steps: seq<Step>, trace: seq<System>, i: nat, j: nat)
    requires IsLoop(p, steps, trace) && i <= j && NoEdits(steps, i, j)
    requires AllUnique(trace[i].challenges) && LoopUnspoiled(p, steps, trace, i, j)
    ensures AllOnCourse(p, trace[i].challenges, trace[j].challenges)
    decreases j
  {
    hide IsStep, Course, IdsUnique, TurnSpoiled;
    if i == j {
      forall c | c in trace[i].challenges ensures Course(p, trace[i].challenges[c], trace[i].challenges[c]) {
        CourseReflexive(p, trace[i].challenges[c]);
      }
    } else {
      LoopOnCourse(p, steps, trace, i, j - 1);
      LoopKeepsUnique(p, steps, trace, i, j - 1);
      var a, b, c := trace[i].challenges, trace[j - 1].challenges, trace[j].challenges;
      assert IsStep(p, trace[j - 1], steps[j - 1], trace[j - 1 + 1]);
      TurnOnCourse(p, trace[j - 1], steps[j - 1], trace[j]);
      forall x | x in a ensures x in c && Course(p, a[x], c[x]) {
        assert x in b;
        CourseTransitive(p, a[x], b[x], c[x]);
      }
    }
  }

  ghost predicate AllAgree(p: Parameters, m: map<int, Challenge>) {
    forall c :: c in m ==> TitlesAgree(p.hints, m[c].hints)
  }

  lemma {:induction false} CourseKeepsTitles(p: Parameters, a: Challenge, b: Challenge)
    ensures Course(p, a, b) && TitlesAgree(p.hints, a.hints) ==> TitlesAgree(p.hints, b.hints)
  {
  }

  lemma {:induction false} TurnKeepsTitles(p: Parameters, a: System, s: Step, b: System)
    requires s.Turn? && IsStep(p, a, s, b) && AllUnique(a.challenges) && AllAgree(p, a.challenges)
    ensures AllAgree(p, b.challenges) && !TurnSpoiled(p, a, s)
  {
    hide Update, Observe, Course, IdsUnique, InSync, ValidOrders, TitlesAgree, UpdateSpoiled;
    var r, w := a.resource, World(a.challenges, Line(s.replies, []));
    TitlesAgreeReconcile(p, r, w, s.orders);
    TurnOnCourse(p, a, s, b);
    ObserveKeeps(p, r, w);
    FreshChallenge(p, NO_RECORD);
    var (r1, w1, seen) := Observe(p, r, w);
    UpdateKeepsKeys(p, r1, w1, s.orders);
    forall c | c in b.challenges ensures TitlesAgree(p.hints, b.challenges[c].hints) {
      if c in a.challenges {
        CourseKeepsTitles(p, a.challenges[c], b.challenges[c]);
      }
    }
  }

  /** No turn spoils hints if the titles of all hints agree to begin with. */
  lemma {:induction false} AgreeingLoopUnspoiled(p: Parameters, steps: seq<Step>, trace: seq<System>, i: nat, j: nat)
    requires IsLoop(p, steps, trace) && i <= j && NoEdits(steps, i, j)
    requires AllUnique(trace[i].challenges) && AllAgree(p, trace[i].challenges)
    ensures LoopUnspoiled(p, steps, trace, i, j) && AllAgree(p, trace[j].challenges)
    decreases j
  {
    hide IsStep, IdsUnique, TurnSpoiled, TitlesAgree;
    if i < j {
      AgreeingLoopUnspoiled(p, steps, trace, i, j - 1);
      LoopKeepsUnique(p, steps, trace, i, j - 1);
      assert IsStep(p, trace[j - 1], steps[j - 1], trace[j - 1 + 1]);
      TurnKeepsTitles(p, trace[j - 1], steps[j - 1], trace[j]);
    }
  }

  /** Over the whole loop: each value's number of flags and of hints stays between
      what there was and what is wanted, and a hint once matched keeps its id. */
  lemma {:induction false} LoopNeverDuplicates(p: Parameters, steps: seq<Step>, trace: seq<System>, i: nat, j: nat,
      c: int, k: string)
    requires IsLoop(p, steps, trace) && i <= j && NoEdits(steps, i, j)
    requires AllUnique(trace[i].challenges) && LoopUnspoiled(p, steps, trace, i, j) && c in trace[i].challenges
    ensures c in trace[j].challenges
    ensures var a, b := trace[i].challenges[c], trace[j].challenges[c];
            && Min(Have(a.flags)[k], Want(p.flags)[k]) <= Have(b.flags)[k]
            && Have(b.flags)[k] <= HintTheorems.Max(Have(a.flags)[k], Want(p.flags)[k])
            && Min(Held(a.hints, k), WantedCount(p.hints, k)) <= Held(b.hints, k)
            && Held(b.hints, k) <= HintTheorems.Max(Held(a.hints, k), WantedCount(p.hints, k))
            && forall d :: 0 <= d < |p.hints| && IdOf(p.hints, a.hints, d) >= 0 ==>
                 IdOf(p.hints, b.hints, d) == IdOf(p.hints, a.hints, d)
  {
    hide IsStep, AllUnique, IdsUnique, IdOf, Held, WantedCount, Have, Want, LoopUnspoiled;
    LoopOnCourse(p, steps, trace, i, j);
    var a, b := trace[i].challenges[c], trace[j].challenges[c];
    assert Course(p, a, b);
    assert Towards(Have(a.flags)[k], Have(b.flags)[k], Want(p.flags)[k]);
    assert Towards(Held(a.hints, k), Held(b.hints, k), WantedCount(p.hints, k));
  }

  /** While the server's type differs from the desired one, no number of turns makes
      the challenge up to date. */
  lemma {:induction false} WrongTypeNeverConverges(p: Parameters, steps: seq<Step>, trace: seq<System>, i: nat, j: nat,
      cid: int, line: Line)
    requires IsLoop(p, steps, trace) && i <= j && NoEdits(steps, i, j)
    requires cid in trace[i].challenges && !RightType(p, trace[i].challenges[cid].record.typ)
    requires Atoi(trace[j].resource.name) == Some(cid)
    ensures Observe(p, trace[j].resource, World(trace[j].challenges, line)).2 != Present(true)
  {
    hide IsStep, HintsUpToDate, FlagsUpToDate;
    LoopKeeps(p, steps, trace, i, j, cid);
  }

  /** With the state left unmanaged, turns of the loop never change it, so at any time
      it is what the last edit, or the creation, made it. */
  lemma {:induction false} UnmanagedStateUntouched(p: Parameters, steps: seq<Step>, trace: seq<System>,
      i: nat, j: nat, c: int)
    requires IsLoop(p, steps, trace) && i <= j && NoEdits(steps, i, j)
    requires p.state == "" && c in trace[i].challenges
    ensures c in trace[j].challenges
    ensures trace[j].challenges[c].record.state == trace[i].challenges[c].record.state
  {
    LoopKeeps(p, steps, trace, i, j, c);
  }

  lemma {:induction false} InSyncIgnoresState(p: Parameters, ch: Challenge, state: string, req: Option<Requirements>)
    requires p.state == ""
    ensures InSync(p, ch.(record := ch.record.(state := state)), req) <==> InSync(p, ch, req)
  {
    hide FlagsUpToDate, HintsUpToDate, IsUpToDate;
    UnmanagedStateStays(p, ch.record, NO_RECORD, state, req);
  }

  /** An edit of nothing but an unmanaged state is not seen as drift. */
  lemma {:induction false} StateEditIsNoDrift(p: Parameters, r: Resource, w: World, cid: int, state: string)
    requires p.state == "" && Atoi(r.name) == Some(cid) && cid in w.challenges
    ensures var ch := w.challenges[cid];
            var edited := ch.(record := ch.record.(state := state));
            Observe(p, r, World(w.challenges[cid := edited], w.line)).2 == Observe(p, r, w).2
  {
    hide InSync, Line.ReadMany;
    var ch := w.challenges[cid];
    InSyncIgnoresState(p, ch, state, None);
    InSyncIgnoresState(p, ch, state, ch.record.requirements);
  }

  /** Whatever happened before, however many calls failed: one turn without failures
      brings the challenge up to date exactly if its type was right to begin with, its
      hints can be unlocked, and this turn does not spoil them. */
  lemma {:induction false} AnyHistoryThenOneQuietTurn(p: Parameters, steps: seq<Step>, trace: seq<System>,
      i: nat, j: nat, cid: int, line: Line, o: Orders, later: Line)
    requires IsLoop(p, steps, trace) && i <= j && NoEdits(steps, i, j)
    requires AllUnique(trace[i].challenges) && cid in trace[i].challenges && cid in trace[j].challenges
    requires Atoi(trace[j].resource.name) == Some(cid) && ValidOrders(p, trace[j].challenges[cid], o)
    requires line.Quiet() && later.Quiet()
    ensures var (r, w) := Reconcile(p, trace[j].resource, World(trace[j].challenges, line), o);
            Observe(p, r, World(w.challenges, later)).2
            == Present(&& RightType(p, trace[i].challenges[cid].record.typ)
                       && Unlockable(Prereqs(p.hints))
                       && !ReconcileSpoiled(p, trace[j].resource, World(trace[j].challenges, line), o))
  {
    hide IsStep, ValidOrders, Reconcile, Observe, Unlockable, ReconcileSpoiled, IdsUnique;
    LoopKeeps(p, steps, trace, i, j, cid);
    LoopKeepsUnique(p, steps, trace, i, j);
    ReconcileConverges(p, trace[j].resource, World(trace[j].challenges, line), o, cid, later);
  }

  // ---------- deletion and failed reads ----------

  /** A deletion that reports success leaves nothing for Observe to find, and touches
      no other challenge; one of a resource that was never created sends nothing. */
  lemma {:induction false} DeleteMeansAbsent(p: Parameters, r: Resource, w: World, later: Line)
    ensures var (w', ok) := Delete(r, w);
            && (ok ==> Observe(p, r, World(w'.challenges, later)).2 == Absent)
            && (forall c :: c in w.challenges && Atoi(r.name) != Some(c) ==>
                  c in w'.challenges && w'.challenges[c] == w.challenges[c])
            && (Atoi(r.name).None? ==> w' == w && ok)
            && (Atoi(r.name).Some? && Atoi(r.name).value in w.challenges && w.line.Quiet() ==> ok)
  {
    ObserveKeeps(p, r, World(Delete(r, w).0.challenges, later));
    HintTheorems.QuietStays(w.line, DeleteChallenge(0));
  }

  lemma {:induction false} EmptyBag(s: seq<int>)
    ensures s == [] <==> multiset(s) == multiset{}
  {
    if s != [] {
      assert s[0] in multiset(s);
    }
  }

  /** The verdict rests on the requirements that could be read. It is wrong exactly when
      their read fails, all the rest is in sync, and either none are wanted and the
      server has some, so that drift goes unseen, or some are wanted and the server has
      just these, so that drift is seen where there is none. */
  lemma {:induction false} UnreadRequirementsMislead(p: Parameters, r: Resource, w: World, cid: int)
    requires Atoi(r.name) == Some(cid) && cid in w.challenges && Observe(p, r, w).2.Present?
    ensures var ch := w.challenges[cid];
            (Observe(p, r, w).2.upToDate <==> InSync(p, ch, ch.record.requirements)) <==>
              !(&& w.line.Read().Next().fault != Served
                && p.requirements.Some? && InSync(p, ch, p.requirements)
                && var want, got := p.requirements.value.prerequisites, PrereqsOf(ch.record.requirements);
                   if want == [] then got != [] else multiset(want) == multiset(got))
  {
    hide FlagsUpToDate, HintsUpToDate;
    EmptyBag(PrereqsOf(w.challenges[cid].record.requirements));
    if p.requirements.Some? {
      EmptyBag(p.requirements.value.prerequisites);
    } else {
      RequirementsOnlyIfSpecified(p, w.challenges[cid].record, None, w.challenges[cid].record.requirements);
    }
  }
}

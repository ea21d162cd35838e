/** The state between any two calls of a hint synchronisation: it is the state in which
    a synchronisation stops that is refused from there on, and the rest of the
    synchronisation is progress from it. */
module HintMoments {
  import opened Ctfd
  import opened PrereqGraph
  import opened HintSync
  import opened HintPhases
  import opened HintExact

  function CutState(s: HintState, n: nat): HintState {
    s.(line := s.line.Cut(n))
  }

  lemma {:induction false} CutPost(s: HintState, n: nat, taken: set<int>, d: HintSpec)
    ensures var (s', id), (cut, cutId) := PostHintCall(s, taken, d), PostHintCall(CutState(s, n), taken, d);
            if n == 0 then cut.hints == s.hints && cutId.None? else cut == CutState(s', n - 1) && cutId == id
  {
    CutStep(s.line, n, PostHint);
  }

  lemma {:induction false} CutPatch(s: HintState, n: nat, id: int, d: HintSpec, want: seq<int>)
    ensures var (s', ok), (cut, cutOk) := PatchHintCall(s, id, d, want), PatchHintCall(CutState(s, n), id, d, want);
            if n == 0 then cut.hints == s.hints && !cutOk else cut == CutState(s', n - 1) && cutOk == ok
  {
    CutStep(s.line, n, PatchHint(id));
  }

  lemma {:induction false} CutDrop(s: HintState, n: nat, id: int)
    ensures var (s', ok), (cut, cutOk) := DeleteHintCall(s, id), DeleteHintCall(CutState(s, n), id);
            if n == 0 then cut.hints == s.hints && !cutOk else cut == CutState(s', n - 1) && cutOk == ok
  {
    CutStep(s.line, n, DeleteHint(id));
  }

  // ---------- creation ----------

  lemma {:induction false} CreatedProgress(desired: seq<HintSpec>, existing: seq<Hint>, c: Created)
    ensures CreatedWell(desired, existing, c) ==>
              Progress(desired, existing, c.state.hints) && Progress(desired, c.state.hints, c.state.hints)
  {
  }

  lemma {:induction false} CreationGoesOn(desired: seq<HintSpec>, existing: seq<Hint>, i: nat, ids: seq<int>,
      taken: set<int>, s: HintState)
    requires i <= |desired| == |ids|
    ensures var full := CreateMissing(desired, i, ids, taken, s).state.hints;
            Creating(desired, existing, i, ids, s.hints) ==>
              Progress(desired, s.hints, full) && Progress(desired, full, full)
  {
    hide Progress, Creating, CreatedWell;
    CreatingAnew(desired, existing, i, ids, s.hints);
    CreatePhase(desired, s.hints, i, ids, taken, s);
    CreatedProgress(desired, s.hints, CreateMissing(desired, i, ids, taken, s));
  }

  /** The rest of a creation phase is progress from where it was cut; uncut, it leaves
      some of the answers. */
  lemma {:induction false} CutCreate(desired: seq<HintSpec>, existing: seq<Hint>, i: nat, ids: seq<int>,
      taken: set<int>, s: HintState, n: nat) returns (left: nat)
    requires i <= |desired| == |ids| && Creating(desired, existing, i, ids, s.hints)
    ensures var cut, full := CreateMissing(desired, i, ids, taken, CutState(s, n)),
                             CreateMissing(desired, i, ids, taken, s);
            && Progress(desired, cut.state.hints, full.state.hints)
            && (cut.ok ==> full.ok && cut.ids == full.ids && cut.state == CutState(full.state, left))
    decreases |desired| - i
  {
    hide PostHintCall, Progress, Creating, Line.Cut;
    left := n;
    CreationGoesOn(desired, existing, i, ids, taken, s);
    if i < |desired| {
      if ids[i] >= 0 {
        OneMoreCreated(desired, existing, i, ids, s.hints);
        left := CutCreate(desired, existing, i + 1, ids, taken, s, n);
      } else {
        CutPost(s, n, taken, desired[i]);
        PostCall(desired, existing, i, ids, taken, s);
        var (s', id) := PostHintCall(s, taken, desired[i]);
        if n > 0 && id.Some? {
          left := CutCreate(desired, existing, i + 1, ids[i := id.value], taken, s', n - 1);
        }
      }
    }
  }

  // ---------- wiring ----------

  lemma {:induction false} WiringGoesOn(desired: seq<HintSpec>, existing: seq<Hint>, line: Line, ids: seq<int>,
      i: nat, s: HintState)
    requires i <= |desired| == |ids| && Resolvable(desired) && !Spoiled(desired, existing, line)
    ensures var full := Wire(desired, existing, ids, i, s).0.hints;
            Wiring(desired, existing, i, ids, s.hints) && OnTurn(desired, existing, line, i, s.line) ==>
              Progress(desired, s.hints, full) && Progress(desired, full, full)
  {
    hide Wiring, OnTurn, Spoiled, WiredWell, Progress;
    WirePhase(desired, existing, line, ids, i, s);
    var (s', ok) := Wire(desired, existing, ids, i, s);
    WiredIsProgress(desired, s.hints, s'.hints, ok);
    ProgressReaches(desired, s.hints, s'.hints);
  }

  lemma {:induction false} ProgressReaches(desired: seq<HintSpec>, a: seq<Hint>, b: seq<Hint>)
    ensures Progress(desired, a, b) ==> Progress(desired, b, b)
  {
  }

  lemma {:induction false} CutWire(desired: seq<HintSpec>, existing: seq<Hint>, line: Line, ids: seq<int>,
      i: nat, s: HintState, n: nat) returns (left: nat)
    requires i <= |desired| == |ids| && Resolvable(desired) && !Spoiled(desired, existing, line)
    requires Wiring(desired, existing, i, ids, s.hints) && OnTurn(desired, existing, line, i, s.line)
    ensures var (cut, cutOk) := Wire(desired, existing, ids, i, CutState(s, n));
            var (full, ok) := Wire(desired, existing, ids, i, s);
            && Progress(desired, cut.hints, full.hints)
            && (cutOk ==> ok && cut == CutState(full, left))
    decreases |desired| - i
  {
    hide PatchHintCall, Progress, Wiring, OnTurn, Line.Cut, Spoiled, SpoiledAt, Settled, Lookup;
    left := n;
    WiringGoesOn(desired, existing, line, ids, i, s);
    if i < |desired| {
      var want := MapPrereqs(desired[i].prerequisites, ids);
      if SettledAt(desired, existing, ids, i) {
        WiringTurn(desired, existing, line, ids, i, s, PostHint);
        left := CutWire(desired, existing, line, ids, i + 1, s, n);
      } else {
        CutPatch(s, n, ids[i], desired[i], want);
        SpoiledAtOne(desired, existing, line, i, s.line);
        UnspoiledPatch(desired, existing, line, ids, i, s);
        var (s', ok) := PatchHintCall(s, ids[i], desired[i], want);
        if n > 0 && ok {
          left := CutWire(desired, existing, line, ids, i + 1, s', n - 1);
        }
      }
    }
  }

  // ---------- deletion ----------

  lemma {:induction false} DeletionGoesOn(desired: seq<HintSpec>, deletes: seq<int>, s: HintState)
    ensures var full := DeleteAll(deletes, s).0.hints;
            Deleting(desired, s.hints, deletes) ==> Progress(desired, s.hints, full) && Progress(desired, full, full)
  {
    hide Deleting, Progress;
    DeletePhase(desired, deletes, s);
    ProgressReaches(desired, s.hints, DeleteAll(deletes, s).0.hints);
  }

  lemma {:induction false} CutDelete(desired: seq<HintSpec>, deletes: seq<int>, s: HintState, n: nat)
    requires Deleting(desired, s.hints, deletes)
    ensures Progress(desired, DeleteAll(deletes, CutState(s, n)).0.hints, DeleteAll(deletes, s).0.hints)
    decreases |deletes|
  {
    hide DeleteHintCall, Deleting, Progress, Line.Cut;
    DeletionGoesOn(desired, deletes, s);
    if deletes != [] {
      CutDrop(s, n, deletes[0]);
      var (s', ok) := DeleteHintCall(s, deletes[0]);
      if n > 0 && ok {
        ServedDrop(s, deletes[0]);
        DeleteFirst(desired, s.hints, deletes);
        CutDelete(desired, deletes[1..], s', n - 1);
      }
    }
  }

  lemma {:induction false} ServedDrop(s: HintState, id: int)
    ensures DeleteHintCall(s, id).1 ==> DeleteHintCall(s, id).0.hints == DropHint(s.hints, id)
  {
  }

  // ---------- the whole synchronisation ----------

  lemma {:induction false} CutFinish(desired: seq<HintSpec>, existing: seq<Hint>, line: Line, ids: seq<int>,
      s: HintState, deletes: seq<int>, n: nat)
    requires Resolvable(desired) && |ids| == |desired| && Sound(existing)
    requires Creating(desired, existing, |desired|, ids, s.hints) && OnTurn(desired, existing, line, 0, s.line)
    requires !Spoiled(desired, existing, line) && IsDeleteOrder(desired, existing, deletes)
    ensures Progress(desired, WireAndDelete(desired, existing, ids, CutState(s, n), deletes).0.hints,
                     WireAndDelete(desired, existing, ids, s, deletes).0.hints)
  {
    hide Progress, Creating, Wiring, OnTurn, Spoiled, Deleting, WiredWell, CutState, IsDeleteOrder, Resolvable;
    CreatedIsWiring(desired, existing, ids, s.hints);
    WirePhase(desired, existing, line, ids, 0, s);
    var left := CutWire(desired, existing, line, ids, 0, s, n);
    var (full, ok) := Wire(desired, existing, ids, 0, s);
    if ok {
      ProgressHasUnwanted(desired, existing, ids, s.hints, full.hints, deletes);
      CutDelete(desired, deletes, full, left);
      DeletionGoesOn(desired, deletes, full);
      ProgressTransitive(desired, Wire(desired, existing, ids, 0, CutState(s, n)).0.hints, full.hints,
                         DeleteAll(deletes, full).0.hints);
    }
  }

  lemma {:induction false} CutListing(s: HintState, n: nat) returns (left: nat)
    ensures ListHints(CutState(s, n)).0.hints == s.hints == ListHints(s).0.hints
    ensures ListHints(CutState(s, n)).1 ==>
              ListHints(s).1 && ListHints(CutState(s, n)).0 == CutState(ListHints(s).0, left)
  {
    CutReads(s.line, 1 + |s.hints|, n);
    left := if n >= 1 + |s.hints| then n - (1 + |s.hints|) else 0;
  }

  /** What is cut off after creation: the rest is progress from there. */
  lemma {:induction false} CutListed(desired: seq<HintSpec>, taken: set<int>, s: HintState, deletes: seq<int>, n: nat,
      left: nat)
    requires Sound(s.hints) && IsDeleteOrder(desired, s.hints, deletes) && !Spoiled(desired, s.hints, s.line)
    requires Unlockable(Prereqs(desired)) && ListHints(s).1 && ListHints(CutState(s, n)).1
    requires ListHints(CutState(s, n)).0 == CutState(ListHints(s).0, left)
    ensures Progress(desired, SyncHints(desired, taken, CutState(s, n), deletes).0.hints,
                     SyncHints(desired, taken, s, deletes).0.hints)
  {
    ValidMeansResolvable(desired);
    hide Progress, Spoiled, Creating, Unlockable, WireAndDelete, Resolvable, CutState, ListHints, CreatedWell, OnTurn;
    var ids, s1 := Ids(desired, s.hints), ListHints(s).0;
    assert ListHints(s).0.hints == s.hints by { ListingKeeps(s, n); }
    assert CutState(s, n).hints == s.hints by { ListingKeeps(s, n); }
    var c := CreateMissing(desired, 0, ids, taken, s1);
    CreatedFromListing(desired, taken, s);
    ListingCreates(desired, s);
    var left' := CutCreate(desired, s.hints, 0, ids, taken, s1, left);
    if c.ok {
      CreatedIs(desired, s.hints, c);
      CutFinish(desired, s.hints, s.line, c.ids, c.state, deletes, left');
      FinishUnspoiled(desired, s.hints, s.line, c.ids, c.state, deletes);
      ProgressTransitive(desired, CreateMissing(desired, 0, ids, taken, CutState(s1, left)).state.hints,
                         c.state.hints, WireAndDelete(desired, s.hints, c.ids, c.state, deletes).0.hints);
    }
  }

  lemma {:induction false} ListingKeeps(s: HintState, n: nat)
    ensures ListHints(s).0.hints == s.hints == CutState(s, n).hints
  {
  }

  lemma {:induction false} ListingCreates(desired: seq<HintSpec>, s: HintState)
    requires Sound(s.hints) && ListHints(s).1
    ensures Creating(desired, s.hints, 0, Ids(desired, s.hints), s.hints)
  {
    ListingStarts(desired, s);
  }

  lemma {:induction false} CreatedIs(desired: seq<HintSpec>, existing: seq<Hint>, c: Created)
    ensures CreatedWell(desired, existing, c) && c.ok ==>
              Creating(desired, existing, |desired|, c.ids, c.state.hints)
  {
  }

  /** An unspoiled synchronisation is progress from each of its moments to its end. */
  lemma {:induction false} CutProgress(desired: seq<HintSpec>, taken: set<int>, s: HintState, deletes: seq<int>, n: nat)
    requires Sound(s.hints) && IsDeleteOrder(desired, s.hints, deletes) && !Spoiled(desired, s.hints, s.line)
    ensures Progress(desired, SyncHints(desired, taken, CutState(s, n), deletes).0.hints,
                     SyncHints(desired, taken, s, deletes).0.hints)
  {
    hide Progress, Spoiled, Unlockable, IsDeleteOrder;
    SyncUnspoiled(desired, taken, s, deletes);
    var left := CutListing(s, n);
    if Unlockable(Prereqs(desired)) && ListHints(CutState(s, n)).1 {
      CutListed(desired, taken, s, deletes, n, left);
    }
  }

  lemma {:induction false} CutAtOnce(desired: seq<HintSpec>, taken: set<int>, s: HintState, deletes: seq<int>)
    ensures SyncHints(desired, taken, CutState(s, 0), deletes).0.hints == s.hints
  {
    hide Unlockable, Line.Cut;
    CutStep(s.line, 0, PostHint);
    var none := CutState(s, 0).line;
    assert !none.ReadMany(1 + |s.hints|).1;
  }

  lemma {:induction false} CutAnswers(line: Line, n: nat, m: nat)
    ensures line.Cut(n).Answer(m) == if m < n then line.Answer(m) else if m == n then REFUSED else SERVED
  {
  }

  lemma {:induction false} CutKeeps(line: Line, n: nat, m: nat)
    ensures KeepsAt(line.Cut(n), m) ==> KeepsAt(line, m)
  {
    hide Line.Cut;
    CutAnswers(line, n, n);
    CutAnswers(line, n, m);
    if KeepsAt(line.Cut(n), m) {
      forall k | 0 <= k < m ensures line.Answer(k).fault == Served {
        CutAnswers(line, n, k);
      }
    }
  }

  lemma {:induction false} CutUnspoiled(desired: seq<HintSpec>, hints: seq<Hint>, line: Line, n: nat)
    ensures Spoiled(desired, hints, line.Cut(n)) ==> Spoiled(desired, hints, line)
  {
    hide Unlockable, MisTitled, NeedsPatch, PatchTurn, KeepsAt;
    if Spoiled(desired, hints, line.Cut(n)) {
      var i :| 0 <= i < |desired| && SpoiledAt(desired, hints, line.Cut(n), i);
      CutKeeps(line, n, PatchTurn(desired, hints, i));
      assert SpoiledAt(desired, hints, line, i);
    }
  }

  /** An unspoiled synchronisation is progress from each of its moments to each later one. */
  lemma {:induction false} MomentsProgress(desired: seq<HintSpec>, taken: set<int>, s: HintState, deletes: seq<int>,
      n: nat, m: nat)
    requires Sound(s.hints) && IsDeleteOrder(desired, s.hints, deletes) && !Spoiled(desired, s.hints, s.line)
    requires n <= m
    ensures Progress(desired, SyncHints(desired, taken, CutState(s, n), deletes).0.hints,
                     SyncHints(desired, taken, CutState(s, m), deletes).0.hints)
  {
    hide Progress, Spoiled, SyncHints;
    CutUnspoiled(desired, s.hints, s.line, m);
    CutOfCut(s.line, n, m);
    CutProgress(desired, taken, CutState(s, m), deletes, n);
  }

  /** An id that a synchronisation knows once its creations are done, or cut short, is
      the id the plan gives at its end, whatever fails afterwards. */
  lemma {:induction false} CreatedIdsStay(desired: seq<HintSpec>, taken: set<int>, s: HintState, deletes: seq<int>)
    requires Sound(s.hints) && IsDeleteOrder(desired, s.hints, deletes) && !Spoiled(desired, s.hints, s.line)
    requires Unlockable(Prereqs(desired)) && ListHints(s).1
    ensures var c := CreateMissing(desired, 0, Ids(desired, s.hints), taken, ListHints(s).0);
            forall d :: 0 <= d < |desired| && c.ids[d] >= 0 ==>
              IdOf(desired, SyncHints(desired, taken, s, deletes).0.hints, d) == c.ids[d]
  {
    ValidMeansResolvable(desired);
    hide Progress, Spoiled, Creating, Unlockable, WireAndDelete, Resolvable, ListHints, OnTurn, IdOf;
    var c := CreateMissing(desired, 0, Ids(desired, s.hints), taken, ListHints(s).0);
    CreatedFromListing(desired, taken, s);
    var end := SyncHints(desired, taken, s, deletes).0.hints;
    if c.ok {
      FinishUnspoiled(desired, s.hints, s.line, c.ids, c.state, deletes);
      forall d | 0 <= d < |desired| && c.ids[d] >= 0 ensures IdOf(desired, end, d) == c.ids[d] {
        ProgressKeepsId(desired, c.state.hints, end, d);
      }
    }
  }
}

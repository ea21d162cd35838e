/** The first call that fails ends an operation: nothing is sent after it, and the
    operation fails exactly if there is one. */
module Failures {
  import opened Ctfd
  import opened Keys
  import Matching
  import opened Conversion
  import opened FlagSync
  import opened HintSync
  import opened PrereqGraph
  import opened Lifecycle
  import opened Operations

  /** What is left of the answers once n of them have been given. */
  function Rest(line: Line, n: nat): seq<Reply> {
    if n <= |line.replies| then line.replies[n..] else []
  }

  /** An operation has used n answers, all of which served their calls, and, if it has
      failed, one more, which did not. */
  ghost predicate StopsAt(line: Line, n: nat, after: Line, ok: bool) {
    && line.Serves(n)
    && (ok ==> after.replies == Rest(line, n))
    && (!ok ==> line.Answer(n).fault != Served && after.replies == Rest(line, n + 1))
  }

  lemma {:induction false} OneCall(line: Line, w: Write) returns (n: nat)
    ensures StopsAt(line, n, line.Read(), line.Next().fault == Served)
    ensures StopsAt(line, n, line.Sent(w), line.Next().fault == Served)
  {
    n := if line.Next().fault == Served then 1 else 0;
  }

  lemma {:induction false} NoCall(line: Line, after: Line)
    requires after.replies == line.replies
    ensures StopsAt(line, 0, after, true)
  {
  }

  lemma {:induction false} AnswersAfter(line: Line, n: nat, mid: Line, k: nat)
    requires mid.replies == Rest(line, n)
    ensures mid.Answer(k) == line.Answer(n + k) && Rest(mid, k) == Rest(line, n + k)
  {
  }

  /** One part after another, the first without failures. */
  lemma {:induction false} Then(line: Line, n: nat, mid: Line, m: nat, after: Line, ok: bool)
    requires StopsAt(line, n, mid, true) && StopsAt(mid, m, after, ok)
    ensures StopsAt(line, n + m, after, ok)
  {
    hide Line.Answer, Rest;
    forall k | 0 <= k < n + m ensures line.Answer(k).fault == Served {
      if k >= n {
        AnswersAfter(line, n, mid, k - n);
        assert mid.Answer(k - n).fault == Served;
      }
    }
    AnswersAfter(line, n, mid, m);
    AnswersAfter(line, n, mid, m + 1);
  }

  lemma {:induction false} ReadsStop(line: Line, k: nat) returns (n: nat)
    ensures var (after, ok) := line.ReadMany(k);
            StopsAt(line, n, after, ok)
    decreases k
  {
    hide StopsAt;
    if k == 0 {
      n := 0;
      NoCall(line, line);
    } else {
      n := OneCall(line, PostFlag);
      if line.Next().fault == Served {
        var m := ReadsStop(line.Read(), k - 1);
        var (after, ok) := line.ReadMany(k);
        Then(line, n, line.Read(), m, after, ok);
        n := n + m;
      }
    }
  }

  // ---------- flags ----------

  lemma {:induction false} FlagPostsStop(desired: seq<FlagSpec>, existing: seq<Flag>, i: nat, taken: set<int>,
      s: FlagState) returns (n: nat)
    requires i <= |desired|
    ensures var (s', ok) := PostMissing(desired, existing, i, taken, s);
            StopsAt(s.line, n, s'.line, ok)
    decreases |desired| - i
  {
    hide StopsAt, Matching.Bind, Line.Sent;
    if i == |desired| {
      n := 0;
      NoCall(s.line, s.line);
    } else if Matching.Bind(WantedFlags(desired), FlagItems(existing), i) >= 0 {
      n := FlagPostsStop(desired, existing, i + 1, taken, s);
    } else {
      n := OneCall(s.line, PostFlag);
      var (s', ok) := PostFlagCall(s, taken, desired[i]);
      if ok {
        var m := FlagPostsStop(desired, existing, i + 1, taken, s');
        var (s'', ok') := PostMissing(desired, existing, i + 1, taken, s');
        Then(s.line, n, s'.line, m, s''.line, ok');
        n := n + m;
      }
    }
  }

  lemma {:induction false} FlagDeletesStop(deletes: seq<int>, s: FlagState) returns (n: nat)
    ensures var (s', ok) := DeleteFlags(deletes, s);
            StopsAt(s.line, n, s'.line, ok)
    decreases |deletes|
  {
    hide StopsAt, Line.Sent;
    if deletes == [] {
      n := 0;
      NoCall(s.line, s.line);
    } else {
      n := OneCall(s.line, DeleteFlag(deletes[0]));
      var (s', ok) := DeleteFlagCall(s, deletes[0]);
      if ok {
        var m := FlagDeletesStop(deletes[1..], s');
        var (s'', ok') := DeleteFlags(deletes[1..], s');
        Then(s.line, n, s'.line, m, s''.line, ok');
        n := n + m;
      }
    }
  }

  lemma {:induction false} SyncFlagsStops(desired: seq<FlagSpec>, taken: set<int>, s: FlagState, deletes: seq<int>)
    returns (n: nat)
    ensures var (s', ok) := SyncFlags(desired, taken, s, deletes);
            StopsAt(s.line, n, s'.line, ok)
  {
    hide StopsAt, PostMissing, DeleteFlags, Line.ReadMany;
    n := ReadsStop(s.line, 1);
    var (line, listed) := s.line.ReadMany(1);
    if listed {
      var s1 := s.(line := line);
      var m := FlagPostsStop(desired, s.flags, 0, taken, s1);
      var (s2, posted) := PostMissing(desired, s.flags, 0, taken, s1);
      Then(s.line, n, line, m, s2.line, posted);
      n := n + m;
      if posted {
        var k := FlagDeletesStop(deletes, s2);
        var (s3, deleted) := DeleteFlags(deletes, s2);
        Then(s.line, n, s2.line, k, s3.line, deleted);
        n := n + k;
      }
    }
  }

  // ---------- hints ----------

  lemma {:induction false} CreationStops(desired: seq<HintSpec>, i: nat, ids: seq<int>, taken: set<int>, s: HintState)
    returns (n: nat)
    requires i <= |desired| == |ids|
    ensures var c := CreateMissing(desired, i, ids, taken, s);
            StopsAt(s.line, n, c.state.line, c.ok)
    decreases |desired| - i
  {
    hide StopsAt, Line.Sent, Mentioned, FreshId;
    if i == |desired| {
      n := 0;
      NoCall(s.line, s.line);
    } else if ids[i] >= 0 {
      n := CreationStops(desired, i + 1, ids, taken, s);
    } else {
      n := OneCall(s.line, PostHint);
      var (s', id) := PostHintCall(s, taken, desired[i]);
      if id.Some? {
        var m := CreationStops(desired, i + 1, ids[i := id.value], taken, s');
        var c := CreateMissing(desired, i + 1, ids[i := id.value], taken, s');
        Then(s.line, n, s'.line, m, c.state.line, c.ok);
        n := n + m;
      }
    }
  }

  lemma {:induction false} WiringStops(desired: seq<HintSpec>, existing: seq<Hint>, ids: seq<int>, i: nat, s: HintState)
    returns (n: nat)
    requires i <= |desired| == |ids| && Resolvable(desired)
    ensures var (s', ok) := Wire(desired, existing, ids, i, s);
            StopsAt(s.line, n, s'.line, ok)
    decreases |desired| - i
  {
    hide StopsAt, Line.Sent, Settled, Lookup, PatchWhere;
    if i == |desired| {
      n := 0;
      NoCall(s.line, s.line);
    } else {
      var want := MapPrereqs(desired[i].prerequisites, ids);
      if Settled(desired[i], want, ReqOf(Lookup(existing, ids[i]))) {
        n := WiringStops(desired, existing, ids, i + 1, s);
      } else {
        n := OneCall(s.line, PatchHint(ids[i]));
        var (s', ok) := PatchHintCall(s, ids[i], desired[i], want);
        if ok {
          var m := WiringStops(desired, existing, ids, i + 1, s');
          var (s'', ok') := Wire(desired, existing, ids, i + 1, s');
          Then(s.line, n, s'.line, m, s''.line, ok');
          n := n + m;
        }
      }
    }
  }

  lemma {:induction false} HintDeletesStop(deletes: seq<int>, s: HintState) returns (n: nat)
    ensures var (s', ok) := DeleteAll(deletes, s);
            StopsAt(s.line, n, s'.line, ok)
    decreases |deletes|
  {
    hide StopsAt, Line.Sent;
    if deletes == [] {
      n := 0;
      NoCall(s.line, s.line);
    } else {
      n := OneCall(s.line, DeleteHint(deletes[0]));
      var (s', ok) := DeleteHintCall(s, deletes[0]);
      if ok {
        var m := HintDeletesStop(deletes[1..], s');
        var (s'', ok') := DeleteAll(deletes[1..], s');
        Then(s.line, n, s'.line, m, s''.line, ok');
        n := n + m;
      }
    }
  }

  lemma {:induction false} FinishStops(desired: seq<HintSpec>, existing: seq<Hint>, ids: seq<int>, s: HintState,
      deletes: seq<int>) returns (n: nat)
    requires |ids| == |desired| && Resolvable(desired)
    ensures var (s', ok) := WireAndDelete(desired, existing, ids, s, deletes);
            StopsAt(s.line, n, s'.line, ok)
  {
    hide StopsAt, Wire, DeleteAll;
    n := WiringStops(desired, existing, ids, 0, s);
    var (s1, wired) := Wire(desired, existing, ids, 0, s);
    if wired {
      var m := HintDeletesStop(deletes, s1);
      var (s2, deleted) := DeleteAll(deletes, s1);
      Then(s.line, n, s1.line, m, s2.line, deleted);
      n := n + m;
    }
  }

  /** What follows the listing. */
  ghost function AfterListing(desired: seq<HintSpec>, existing: seq<Hint>, taken: set<int>, s: HintState,
      deletes: seq<int>): (HintState, bool)
    requires Resolvable(desired)
  {
    var c := CreateMissing(desired, 0, Ids(desired, existing), taken, s);
    if !c.ok then (c.state, false) else WireAndDelete(desired, existing, c.ids, c.state, deletes)
  }

  lemma {:induction false} AfterListingStops(desired: seq<HintSpec>, existing: seq<Hint>, taken: set<int>,
      s: HintState, deletes: seq<int>) returns (n: nat)
    requires Resolvable(desired)
    ensures var (s', ok) := AfterListing(desired, existing, taken, s, deletes);
            StopsAt(s.line, n, s'.line, ok)
  {
    hide StopsAt, WireAndDelete, CreateMissing, Ids, Resolvable;
    var c := CreateMissing(desired, 0, Ids(desired, existing), taken, s);
    n := CreationStops(desired, 0, Ids(desired, existing), taken, s);
    if c.ok {
      var m := FinishStops(desired, existing, c.ids, c.state, deletes);
      var (s', done) := WireAndDelete(desired, existing, c.ids, c.state, deletes);
      Then(s.line, n, c.state.line, m, s'.line, done);
      n := n + m;
    }
  }

  lemma {:induction false} ListsFirst(desired: seq<HintSpec>, taken: set<int>, s: HintState, deletes: seq<int>)
    requires Unlockable(Prereqs(desired)) && Resolvable(desired)
    ensures var (s1, listed) := ListHints(s);
            SyncHints(desired, taken, s, deletes)
            == if listed then AfterListing(desired, s.hints, taken, s1, deletes) else (s1, false)
  {
    hide Unlockable, WireAndDelete, CreateMissing, Ids, ListHints;
  }

  lemma {:induction false} ListingStops(s: HintState) returns (n: nat)
    ensures var (s1, listed) := ListHints(s);
            StopsAt(s.line, n, s1.line, listed)
  {
    n := ReadsStop(s.line, 1 + |s.hints|);
  }

  lemma {:induction false} SyncHintsStops(desired: seq<HintSpec>, taken: set<int>, s: HintState, deletes: seq<int>)
    returns (n: nat)
    requires Unlockable(Prereqs(desired))
    ensures var (s', ok) := SyncHints(desired, taken, s, deletes);
            StopsAt(s.line, n, s'.line, ok)
  {
    hide *;
    ValidMeansResolvable(desired);
    ListsFirst(desired, taken, s, deletes);
    n := ListingStops(s);
    if ListHints(s).1 {
      n := ThenAfterListing(desired, taken, s, deletes, n);
    }
  }

  lemma {:induction false} ThenAfterListing(desired: seq<HintSpec>, taken: set<int>, s: HintState, deletes: seq<int>,
      n: nat) returns (k: nat)
    requires Resolvable(desired) && StopsAt(s.line, n, ListHints(s).0.line, true)
    ensures var (s', ok) := AfterListing(desired, s.hints, taken, ListHints(s).0, deletes);
            StopsAt(s.line, k, s'.line, ok)
  {
    hide *;
    var s1 := ListHints(s).0;
    var m := AfterListingStops(desired, s.hints, taken, s1, deletes);
    var (s2, ok) := AfterListing(desired, s.hints, taken, s1, deletes);
    Then(s.line, n, s1.line, m, s2.line, ok);
    k := n + m;
  }

  // ---------- the update ----------

  /** An update of a live challenge with a valid specification fails exactly at the first
      call that fails, and sends nothing after it. */
  lemma {:induction false} UpdateStops(p: Parameters, r: Resource, w: World, o: Orders, cid: int) returns (n: nat)
    requires Names(r.name, cid) && cid in w.challenges && Unlockable(Prereqs(p.hints))
    ensures var (w', ok) := Update(p, r, w, o);
            StopsAt(w.line, n, w'.line, ok)
  {
    NamesIffAtoi(r.name, cid);
    hide StopsAt, Unlockable, SyncFlags, SyncHints, Line.Sent, Conversion.Patched, Names, Atoi;
    n := OneCall(w.line, PatchChallenge(cid));
    var (w1, patched) := PatchChallengeCall(p, r.status.state, w, cid);
    if patched {
      var ch := w1.challenges[cid];
      var m := SyncFlagsStops(p.flags, TakenFlags(w1.challenges, cid), FlagState(ch.flags, w1.line), o.flags);
      var (w2, flagged) := SyncFlagsOf(p.flags, w1, cid, o.flags);
      Then(w.line, n, w1.line, m, w2.line, flagged);
      n := n + m;
      if flagged {
        var ch2 := w2.challenges[cid];
        var k := SyncHintsStops(p.hints, TakenHints(w2.challenges, cid), HintState(ch2.hints, w2.line), o.hints);
        var (w3, hinted) := SyncHintsOf(p.hints, w2, cid, o.hints);
        Then(w.line, n, w2.line, k, w3.line, hinted);
        n := n + k;
      }
    }
  }

  /** With hints that cannot all be unlocked an update fails, and leaves the hints as they
      are. */
  lemma {:induction false} InvalidHintsAreRefused(p: Parameters, r: Resource, w: World, o: Orders, cid: int)
    requires Names(r.name, cid) && cid in w.challenges && !Unlockable(Prereqs(p.hints))
    ensures var (w', ok) := Update(p, r, w, o);
            !ok && cid in w'.challenges && w'.challenges[cid].hints == w.challenges[cid].hints
  {
    NamesIffAtoi(r.name, cid);
    hide Unlockable, SyncFlags, Names, Atoi, Conversion.Patched;
  }
}

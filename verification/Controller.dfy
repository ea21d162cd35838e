/** The reconciler's own methods, call by call with early error returns, proved equal
    to the functions that the theorems are about. */
module Controller {
  import opened Wrappers
  import opened Ctfd
  import opened Keys
  import opened Matching
  import opened Conversion
  import opened FlagSync
  import opened HintSync
  import opened PrereqGraph
  import opened Lifecycle
  import opened Planner
  import opened Server
  import Bags
  import HintProgress

  /** The managed resource: what it asks for, its external name, its last status. */
  class ManagedChallenge {
    const spec: Parameters
    var name: string
    var status: Status

    constructor (spec: Parameters, name: string, status: Status)
      ensures this.spec == spec && this.name == name && this.status == status
    {
      this.spec, this.name, this.status := spec, name, status;
    }

    function Value(): Resource
      reads this
    {
      Resource(name, status)
    }
  }

  lemma {:induction false} TakenElsewhere(m: map<int, Challenge>, cid: int, ch: Challenge)
    ensures TakenFlags(m[cid := ch], cid) == TakenFlags(m, cid)
    ensures TakenHints(m[cid := ch], cid) == TakenHints(m, cid)
  {
    var m' := m[cid := ch];
    assert forall c :: c != cid ==> (c in m' <==> c in m) && (c in m ==> m'[c] == m[c]);
    forall x ensures x in TakenFlags(m', cid) <==> x in TakenFlags(m, cid) {
      if x in TakenFlags(m, cid) {
        var c, f :| c in m && c != cid && f in m[c].flags && f.id == x;
        assert c in m' && f in m'[c].flags;
      }
    }
    forall x ensures x in TakenHints(m', cid) <==> x in TakenHints(m, cid) {
      if x in TakenHints(m, cid) {
        var c :| c in m && c != cid && x in Mentioned(m[c].hints);
        assert c in m' && x in Mentioned(m'[c].hints);
      }
    }
  }

  lemma {:induction false} OnlyTransitive(a: map<int, Challenge>, b: map<int, Challenge>,
      c: map<int, Challenge>, cid: int)
    ensures OnlyFlags(a, b, cid) && OnlyFlags(b, c, cid) ==> OnlyFlags(a, c, cid)
    ensures OnlyHints(a, b, cid) && OnlyHints(b, c, cid) ==> OnlyHints(a, c, cid)
  {
  }

  /** The ids the server keeps unique. */
  ghost predicate Unambiguous(ch: Challenge) {
    UniqueIds(FlagItems(ch.flags)) && UniqueIds(Items(ch.hints))
  }

  class External {
    const client: Client

    constructor (client: Client)
      ensures this.client == client
    {
      this.client := client;
    }

    /** Lists the hints of a challenge and reads each one in full. */
    method ChallengeHints(cid: int) returns (hints: Option<seq<Hint>>)
      requires cid in client.challenges && UniqueIds(Items(client.challenges[cid].hints))
      modifies client`line
      ensures var all := client.challenges[cid].hints;
              var (line, ok) := old(client.line).ReadMany(1 + |all|);
              client.line == line && hints == if ok then Some(all) else None
    {
      hide Lookup, Items, UniqueIds;
      ghost var start := client.line;
      ghost var all := client.challenges[cid].hints;
      var ids := client.GetChallengeHints(cid);
      if ids.None? {
        return None;
      }
      var full: seq<Hint> := [];
      for i := 0 to |ids.value|
        invariant full == all[..i]
        invariant client.line.ReadMany(|all| - i) == start.ReadMany(1 + |all|)
      {
        HintProgress.LookupFinds(all, i);
        var hint := client.GetHint(cid, ids.value[i]);
        if hint.None? {
          return None;
        }
        full := full + [hint.value];
      }
      assert all[..|all|] == all;
      hints := Some(full);
    }

    /** Posts the flags that no listed flag answers; what the pool has left is to go. */
    method PostMissingFlags(cid: int, desired: seq<FlagSpec>, existing: seq<Flag>) returns (ok: bool, left: seq<int>)
      requires cid in client.challenges && UniqueIds(FlagItems(existing))
      modifies client
      ensures OnlyFlags(old(client.challenges), client.challenges, cid)
      ensures (client.FlagsOf(cid), ok)
           == PostMissing(desired, existing, 0, TakenFlags(old(client.challenges), cid), old(client.FlagsOf(cid)))
      ensures ok ==> IsFlagOrder(desired, existing, left)
    {
      hide Bind, Surplus, Queue, Rank, PoolAfter, PostFlagCall, FlagKey;
      ghost var keys, items := WantedFlags(desired), FlagItems(existing);
      ghost var taken, s0 := TakenFlags(client.challenges, cid), client.FlagsOf(cid);
      var pool := FillPool(FlagItems(existing));
      assert keys[..0] == [];
      for i := 0 to |desired|
        invariant OnlyFlags(old(client.challenges), client.challenges, cid)
        invariant PoolAfter(pool, keys[..i], items)
        invariant PostMissing(desired, existing, i, taken, client.FlagsOf(cid))
               == PostMissing(desired, existing, 0, taken, s0)
      {
        var d := desired[i];
        BoundNonNegative(keys, items, i);
        var kept;
        kept, pool := Take(pool, keys, items, i, FlagKey(d.content, d.typ, d.data));
        if kept.None? {
          TakenElsewhere(old(client.challenges), cid, client.challenges[cid]);
          SameFlag(client.FlagsOf(cid), taken, d);
          var posted := client.PostFlags(cid, d.content, FlagTypeOrDefault(d.typ), d.data);
          if !posted {
            return false, [];
          }
        }
      }
      assert keys[..|desired|] == keys;
      left := Drain(pool, keys, items);
      ok := true;
    }

    /** Posts what is missing, then deletes what is left over. */
    method SyncFlags(cid: int, desired: seq<FlagSpec>) returns (ok: bool, ghost deletes: seq<int>)
      requires cid in client.challenges && UniqueIds(FlagItems(client.challenges[cid].flags))
      modifies client
      ensures IsFlagOrder(desired, old(client.challenges[cid].flags), deletes)
      ensures (client.Here(), ok) == SyncFlagsOf(desired, old(client.Here()), cid, deletes)
    {
      hide PostMissing, FlagSync.DeleteFlags, Surplus;
      ghost var flags0 := client.challenges[cid].flags;
      deletes := SurplusFlags(desired, flags0);
      var existing := client.GetChallengeFlags(cid);
      if existing.None? {
        assert client.challenges == client.challenges[cid := client.challenges[cid].(flags := flags0)];
        return false, deletes;
      }
      TakenElsewhere(client.challenges, cid, client.challenges[cid]);
      var posted, left := PostMissingFlags(cid, desired, existing.value);
      if !posted {
        return false, deletes;
      }
      deletes := left;
      ghost var before := client.challenges;
      ok := DeleteFlags(cid, left);
      OnlyTransitive(old(client.challenges), before, client.challenges, cid);
    }

    method DeleteFlags(cid: int, ids: seq<int>) returns (ok: bool)
      requires cid in client.challenges
      modifies client
      ensures OnlyFlags(old(client.challenges), client.challenges, cid)
      ensures (client.FlagsOf(cid), ok) == FlagSync.DeleteFlags(ids, old(client.FlagsOf(cid)))
    {
      for i := 0 to |ids|
        invariant OnlyFlags(old(client.challenges), client.challenges, cid)
        invariant FlagSync.DeleteFlags(ids[i..], client.FlagsOf(cid))
               == FlagSync.DeleteFlags(ids, old(client.FlagsOf(cid)))
      {
        assert ids[i..][1..] == ids[i + 1..];
        var deleted := client.DeleteFlag(cid, ids[i]);
        if !deleted {
          return false;
        }
      }
      ok := true;
    }

    /** Creates the hints the plan has no id for, writing the new ids into the plan. */
    method CreateMissingHints(cid: int, desired: seq<HintSpec>, idByIndex: array<int>) returns (ok: bool)
      requires cid in client.challenges && idByIndex.Length == |desired|
      modifies client, idByIndex
      ensures OnlyHints(old(client.challenges), client.challenges, cid)
      ensures Created(client.HintsOf(cid), idByIndex[..], ok)
           == CreateMissing(desired, 0, old(idByIndex[..]), TakenHints(old(client.challenges), cid),
                            old(client.HintsOf(cid)))
    {
      hide PostHintCall, TakenHints;
      ghost var taken := TakenHints(client.challenges, cid);
      ghost var ids0, s0 := idByIndex[..], client.HintsOf(cid);
      for i := 0 to |desired|
        invariant OnlyHints(old(client.challenges), client.challenges, cid)
        invariant CreateMissing(desired, i, idByIndex[..], taken, client.HintsOf(cid))
               == CreateMissing(desired, 0, ids0, taken, s0)
      {
        if idByIndex[i] < 0 {
          ghost var ids := idByIndex[..];
          TakenElsewhere(old(client.challenges), cid, client.challenges[cid]);
          var id := client.PostHints(cid, desired[i]);
          if id.None? {
            return false;
          }
          idByIndex[i] := id.value;
          assert idByIndex[..] == ids[i := id.value];
        }
      }
      ok := true;
    }

    /** Patches the hints whose listed requirements are not those wanted. */
    method ReconcileHintRequirements(cid: int, desired: seq<HintSpec>, existing: seq<Hint>, idByIndex: array<int>)
      returns (ok: bool)
      requires cid in client.challenges && idByIndex.Length == |desired| && Resolvable(desired)
      modifies client
      ensures OnlyHints(old(client.challenges), client.challenges, cid)
      ensures (client.HintsOf(cid), ok) == Wire(desired, existing, idByIndex[..], 0, old(client.HintsOf(cid)))
    {
      hide PatchHintCall, Settled, Lookup;
      var byId := IndexById(existing);
      ghost var s0 := client.HintsOf(cid);
      for i := 0 to |desired|
        invariant OnlyHints(old(client.challenges), client.challenges, cid)
        invariant Wire(desired, existing, idByIndex[..], i, client.HintsOf(cid))
               == Wire(desired, existing, idByIndex[..], 0, s0)
      {
        var d, id := desired[i], idByIndex[i];
        var want := MapPrereqsOf(d.prerequisites, idByIndex);
        var settled := IsSettled(d, want, if id in byId then Some(byId[id]) else None);
        if !settled {
          var patched := client.PatchHint(cid, id, d, want);
          if !patched {
            return false;
          }
        }
      }
      ok := true;
    }

    method DeleteHints(cid: int, ids: seq<int>) returns (ok: bool)
      requires cid in client.challenges
      modifies client
      ensures OnlyHints(old(client.challenges), client.challenges, cid)
      ensures (client.HintsOf(cid), ok) == DeleteAll(ids, old(client.HintsOf(cid)))
    {
      for i := 0 to |ids|
        invariant OnlyHints(old(client.challenges), client.challenges, cid)
        invariant DeleteAll(ids[i..], client.HintsOf(cid)) == DeleteAll(ids, old(client.HintsOf(cid)))
      {
        assert ids[i..][1..] == ids[i + 1..];
        var deleted := client.DeleteHint(cid, ids[i]);
        if !deleted {
          return false;
        }
      }
      ok := true;
    }

    /** Creates what is missing, then wires up prerequisites, then deletes the rest. */
    method SyncHints(cid: int, desired: seq<HintSpec>) returns (ok: bool, ghost deletes: seq<int>)
      requires cid in client.challenges && UniqueIds(Items(client.challenges[cid].hints))
      modifies client
      ensures IsDeleteOrder(desired, old(client.challenges[cid].hints), deletes)
      ensures (client.Here(), ok) == SyncHintsOf(desired, old(client.Here()), cid, deletes)
    {
      hide CreateMissing, Wire, DeleteAll, Surplus, Unlockable, Plan;
      ghost var hints0 := client.challenges[cid].hints;
      deletes := Unwanted(desired, hints0);
      var err := ValidateHintPrereqs(Prereqs(desired));
      if err.Some? {
        assert client.challenges == client.challenges[cid := client.challenges[cid].(hints := hints0)];
        return false, deletes;
      }
      ValidMeansResolvable(desired);
      var existing := ChallengeHints(cid);
      if existing.None? {
        assert client.challenges == client.challenges[cid := client.challenges[cid].(hints := hints0)];
        return false, deletes;
      }
      var idByIndex, unwanted := PlanHints(desired, existing.value);
      deletes := unwanted;
      var created := CreateMissingHints(cid, desired, idByIndex);
      if !created {
        return false, deletes;
      }
      ghost var before := client.challenges;
      var wired := ReconcileHintRequirements(cid, desired, existing.value, idByIndex);
      OnlyTransitive(old(client.challenges), before, client.challenges, cid);
      if !wired {
        return false, deletes;
      }
      before := client.challenges;
      ok := DeleteHints(cid, unwanted);
      OnlyTransitive(old(client.challenges), before, client.challenges, cid);
    }

    /** The answer to whether the challenge exists and is in sync; the status records
        what was seen. */
    method Observe(cr: ManagedChallenge) returns (seen: Observation)
      requires forall c :: c in client.challenges ==> Unambiguous(client.challenges[c])
      modifies client`line, cr`status
      ensures (cr.Value(), client.Here(), seen) == Lifecycle.Observe(cr.spec, old(cr.Value()), old(client.Here()))
    {
      if cr.name == "" {
        return Absent;
      }
      var id := Atoi(cr.name);
      if id.None? {
        return Absent;
      }
      var cid := id.value;
      var record := client.GetChallenge(cid);
      if record.None? {
        return Absent;
      }
      var req := None;
      if cr.spec.requirements.Some? {
        req := client.GetChallengeRequirements(cid);
      }
      var flags := client.GetChallengeFlags(cid);
      if flags.None? {
        return Failed;
      }
      var hints := ChallengeHints(cid);
      if hints.None? {
        return Failed;
      }
      cr.status := Status(cid, record.value.value, record.value.state, record.value.typ, |flags.value|, |hints.value|);
      var own := RecordUpToDate(cr.spec, record.value, req);
      var flagsOk := AreFlagsUpToDate(cr.spec.flags, flags.value);
      var hintsOk := AreHintsUpToDate(cr.spec.hints, hints.value);
      seen := Present(own && flagsOk && hintsOk);
    }

    /** The comparison of a challenge's own fields, prerequisites as bags. */
    method RecordUpToDate(p: Parameters, ch: Record, req: Option<Requirements>) returns (upToDate: bool)
      ensures upToDate <==> IsUpToDate(p, ch, req)
    {
      if ch.name != p.name || ch.category != p.category || ch.description != p.description
         || (p.state != "" && ch.state != p.state) || ch.typ != TypeOrDefault(p.typ)
      {
        return false;
      }
      if TypeOrDefault(p.typ) == DEFAULT_TYPE && p.value.Some? && ch.value != p.value.value {
        return false;
      }
      if !Eq(p.initial, ch.initial) || !Eq(p.decay, ch.decay) || !Eq(p.minimum, ch.minimum)
         || !Eq(p.maxAttempts, ch.maxAttempts) || !Eq(p.nextId, ch.nextId)
      {
        return false;
      }
      if !Eq(p.decayFunction, ch.decayFunction) || !Eq(p.connectionInfo, ch.connectionInfo)
         || !Eq(p.attribution, ch.attribution)
      {
        return false;
      }
      if p.requirements.Some? {
        var same := Bags.SameIntSet(p.requirements.value.prerequisites, PrereqsOf(req));
        if !same {
          return false;
        }
      }
      return true;
    }

    method Create(cr: ManagedChallenge) returns (ok: bool)
      modifies client, cr`name
      ensures (cr.Value(), client.Here(), ok) == Lifecycle.Create(cr.spec, old(cr.Value()), old(client.Here()))
    {
      var cid := client.PostChallenges(PostParams(cr.spec));
      if cid.None? {
        return false;
      }
      cr.name := Itoa(cid.value);
      ok := true;
    }

    method Update(cr: ManagedChallenge) returns (ok: bool, ghost orders: Orders)
      requires forall c :: c in client.challenges ==> Unambiguous(client.challenges[c])
      modifies client
      ensures forall c :: Atoi(cr.name) == Some(c) && c in old(client.challenges) ==>
                ValidOrders(cr.spec, old(client.challenges)[c], orders)
      ensures (client.Here(), ok) == Lifecycle.Update(cr.spec, cr.Value(), old(client.Here()), orders)
    {
      orders := Orders([], []);
      var id := Atoi(cr.name);
      if id.None? {
        return false, orders;
      }
      var cid := id.value;
      ghost var known := cid in client.challenges;
      ghost var flags0 := if known then client.challenges[cid].flags else [];
      ghost var hints0 := if known then client.challenges[cid].hints else [];
      orders := Orders(SurplusFlags(cr.spec.flags, flags0), Unwanted(cr.spec.hints, hints0));
      var patched := client.PatchChallenge(cid, PatchParams(cr.spec, cr.status.state));
      if !patched {
        return false, orders;
      }
      var flagged, flagOrder := SyncFlags(cid, cr.spec.flags);
      orders := orders.(flags := flagOrder);
      if !flagged {
        return false, orders;
      }
      var hinted, hintOrder := SyncHints(cid, cr.spec.hints);
      orders := orders.(hints := hintOrder);
      ok := hinted;
    }

    method Delete(cr: ManagedChallenge) returns (ok: bool)
      modifies client
      ensures (client.Here(), ok) == Lifecycle.Delete(cr.Value(), old(client.Here()))
    {
      var id := Atoi(cr.name);
      if id.None? {
        return true;
      }
      ok := client.DeleteChallenge(id.value);
    }
  }

  /** A flag is posted with its type filled in, and stored as if it had been given. */
  lemma {:induction false} SameFlag(s: FlagState, taken: set<int>, d: FlagSpec)
    ensures PostFlagCall(s, taken, FlagSpec(d.content, FlagTypeOrDefault(d.typ), d.data)) == PostFlagCall(s, taken, d)
  {
  }
}

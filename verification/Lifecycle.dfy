/** The managed resource and its remote challenge: Observe, Create, Update and Delete
    as functions of the resource, the server and its answers, and one reconcile. */
module Lifecycle {
  import opened Wrappers
  import opened Ctfd
  import opened Keys
  import opened Conversion
  import opened FlagSync
  import opened HintSync

  datatype Status = Status(id: int, value: int, state: string, typ: string, flags: nat, hints: nat)

  /** The resource's external name and last observed status. */
  datatype Resource = Resource(name: string, status: Status)

  datatype World = World(challenges: map<int, Challenge>, line: Line)

  /** What Observe reports: no such challenge, an error, or whether it is in sync. */
  datatype Observation = Absent | Failed | Present(upToDate: bool)

  /** The ids other challenges use, which a new flag or hint cannot get. */
  function TakenFlags(challenges: map<int, Challenge>, cid: int): set<int> {
    set c, f | c in challenges && c != cid && f in challenges[c].flags :: f.id
  }

  function TakenHints(challenges: map<int, Challenge>, cid: int): set<int> {
    set c, id | c in challenges && c != cid && id in Mentioned(challenges[c].hints) :: id
  }

  function StatusOf(cid: int, ch: Challenge): Status {
    Status(cid, ch.record.value, ch.record.state, ch.record.typ, |ch.flags|, |ch.hints|)
  }

  ghost predicate InSync(p: Parameters, ch: Challenge, req: Option<Requirements>) {
    && IsUpToDate(p, ch.record, req)
    && FlagsUpToDate(p.flags, ch.flags)
    && HintsUpToDate(p.hints, ch.hints)
  }

  /** The reads of an observation. A failed read of the challenge counts as absence, a
      failed read of its requirements as there being none, and any other as an error. */
  ghost function ObserveLive(p: Parameters, r: Resource, w: World, cid: int): (Resource, World, Observation)
    requires cid in w.challenges
  {
    var ch := w.challenges[cid];
    var req := if p.requirements.Some? && w.line.Next().fault == Served then ch.record.requirements else None;
    var line1 := if p.requirements.Some? then w.line.Read() else w.line;
    var (line2, flagsRead) := line1.ReadMany(1);
    if !flagsRead then (r, w.(line := line2), Failed)
    else
      var (line3, hintsRead) := line2.ReadMany(1 + |ch.hints|);
      if !hintsRead then (r, w.(line := line3), Failed)
      else (r.(status := StatusOf(cid, ch)), w.(line := line3), Present(InSync(p, ch, req)))
  }

  ghost function Observe(p: Parameters, r: Resource, w: World): (Resource, World, Observation) {
    if r.name == "" then (r, w, Absent)
    else match Atoi(r.name)
      case None => (r, w, Absent)
      case Some(cid) =>
        var w1 := w.(line := w.line.Read());
        if w.line.Next().fault != Served || cid !in w.challenges then (r, w1, Absent)
        else ObserveLive(p, r, w1, cid)
  }

  /** The new challenge's id becomes the external name, unless the reply is lost. */
  function Create(p: Parameters, r: Resource, w: World): (Resource, World, bool) {
    var reply := w.line.Next();
    var cid := FreshId(w.challenges.Keys, reply.id);
    var created := Challenge(Posted(PostParams(p), reply.filler), [], []);
    var w1 := World(if reply.fault == Refused then w.challenges else w.challenges[cid := created],
                    w.line.Sent(PostChallenge));
    if reply.fault == Served then (r.(name := Itoa(cid)), w1, true) else (r, w1, false)
  }

  /** The orders in which map iteration yields the flags and hints to delete. */
  datatype Orders = Orders(flags: seq<int>, hints: seq<int>)

  ghost predicate ValidOrders(p: Parameters, ch: Challenge, o: Orders) {
    IsFlagOrder(p.flags, ch.flags, o.flags) && IsDeleteOrder(p.hints, ch.hints, o.hints)
  }

  /** Only the flags, or only the hints, of one challenge differ. */
  ghost predicate OnlyFlags(a: map<int, Challenge>, b: map<int, Challenge>, cid: int) {
    cid in a && cid in b && b == a[cid := a[cid].(flags := b[cid].flags)]
  }

  ghost predicate OnlyHints(a: map<int, Challenge>, b: map<int, Challenge>, cid: int) {
    cid in a && cid in b && b == a[cid := a[cid].(hints := b[cid].hints)]
  }

  function SyncFlagsOf(desired: seq<FlagSpec>, w: World, cid: int, deletes: seq<int>): (World, bool)
    requires cid in w.challenges
  {
    var ch := w.challenges[cid];
    var (s, ok) := SyncFlags(desired, TakenFlags(w.challenges, cid), FlagState(ch.flags, w.line), deletes);
    (World(w.challenges[cid := ch.(flags := s.flags)], s.line), ok)
  }

  ghost function SyncHintsOf(desired: seq<HintSpec>, w: World, cid: int, deletes: seq<int>): (World, bool)
    requires cid in w.challenges
  {
    var ch := w.challenges[cid];
    var (s, ok) := SyncHints(desired, TakenHints(w.challenges, cid), HintState(ch.hints, w.line), deletes);
    (World(w.challenges[cid := ch.(hints := s.hints)], s.line), ok)
  }

  function PatchChallengeCall(p: Parameters, state: string, w: World, cid: int): (World, bool) {
    var reply := w.line.Next();
    if cid !in w.challenges then (w.(line := w.line.Rejected(PatchChallenge(cid))), false)
    else
      var ch := w.challenges[cid];
      var patched := ch.(record := Conversion.Patched(ch.record, PatchParams(p, state), reply.filler));
      (World(if reply.fault == Refused then w.challenges else w.challenges[cid := patched],
             w.line.Sent(PatchChallenge(cid))),
       reply.fault == Served)
  }

  /** The challenge's fields first, then its flags, then its hints; the first failure
      ends the update. */
  ghost function Update(p: Parameters, r: Resource, w: World, o: Orders): (World, bool) {
    match Atoi(r.name)
    case None => (w, false)
    case Some(cid) =>
      var (w1, patched) := PatchChallengeCall(p, r.status.state, w, cid);
      if !patched then (w1, false)
      else
        var (w2, flagged) := SyncFlagsOf(p.flags, w1, cid, o.flags);
        if !flagged then (w2, false) else SyncHintsOf(p.hints, w2, cid, o.hints)
  }

  /** A resource that was never created has nothing to delete; a challenge goes with
      its flags and hints. */
  function Delete(r: Resource, w: World): (World, bool) {
    match Atoi(r.name)
    case None => (w, true)
    case Some(cid) =>
      var reply := w.line.Next();
      if cid !in w.challenges then (w.(line := w.line.Rejected(DeleteChallenge(cid))), false)
      else (World(if reply.fault == Refused then w.challenges else w.challenges - {cid},
                  w.line.Sent(DeleteChallenge(cid))),
            reply.fault == Served)
  }

  /** One reconcile of a resource that is not being deleted: observe, then create what
      is absent, update what is out of sync, and leave the rest alone. */
  ghost function Reconcile(p: Parameters, r: Resource, w: World, o: Orders): (Resource, World) {
    var (r1, w1, seen) := Observe(p, r, w);
    match seen
    case Absent => var (r2, w2, _) := Create(p, r1, w1); (r2, w2)
    case Present(false) => (r1, Update(p, r1, w1, o).0)
    case Present(true) => (r1, w1)
    case Failed => (r1, w1)
  }
}

/** The CTFd server as the reconciler reaches it: its challenges, and the answers it
    will give. Ids of flags and hints are unique on the whole server, so a call about
    one is modelled as a call about the challenge it belongs to. */
module Server {
  import opened Wrappers
  import opened Ctfd
  import opened Conversion
  import opened FlagSync
  import opened HintSync
  import opened Lifecycle

  class Client {
    var challenges: map<int, Challenge>
    var line: Line

    constructor (challenges: map<int, Challenge>, line: Line)
      ensures this.challenges == challenges && this.line == line
    {
      this.challenges, this.line := challenges, line;
    }

    function Here(): World
      reads this
    {
      World(challenges, line)
    }

    function FlagsOf(cid: int): FlagState
      requires cid in challenges
      reads this
    {
      FlagState(challenges[cid].flags, line)
    }

    function HintsOf(cid: int): HintState
      requires cid in challenges
      reads this
    {
      HintState(challenges[cid].hints, line)
    }

    // ---------- reads ----------

    method Get() returns (ok: bool)
      modifies this`line
      ensures line == old(line).Read() && (ok <==> old(line).Next().fault == Served)
    {
      ok := line.Next().fault == Served;
      line := line.Read();
    }

    method GetChallenge(cid: int) returns (record: Option<Record>)
      modifies this`line
      ensures line == old(line).Read()
      ensures record == if old(line).Next().fault == Served && cid in challenges
                        then Some(challenges[cid].record) else None
    {
      var ok := Get();
      record := if ok && cid in challenges then Some(challenges[cid].record) else None;
    }

    /** A failed read leaves no requirements to look at. */
    method GetChallengeRequirements(cid: int) returns (req: Option<Requirements>)
      requires cid in challenges
      modifies this`line
      ensures line == old(line).Read()
      ensures req == if old(line).Next().fault == Served then challenges[cid].record.requirements else None
    {
      var ok := Get();
      req := if ok then challenges[cid].record.requirements else None;
    }

    method GetChallengeFlags(cid: int) returns (flags: Option<seq<Flag>>)
      requires cid in challenges
      modifies this`line
      ensures line == old(line).Read()
      ensures flags == if old(line).Next().fault == Served then Some(challenges[cid].flags) else None
    {
      var ok := Get();
      flags := if ok then Some(challenges[cid].flags) else None;
    }

    /** The hint listing gives ids only; each hint is then read in full. */
    method GetChallengeHints(cid: int) returns (ids: Option<seq<int>>)
      requires cid in challenges
      modifies this`line
      ensures line == old(line).Read()
      ensures ids.Some? <==> old(line).Next().fault == Served
      ensures ids.Some? ==> |ids.value| == |challenges[cid].hints|
      ensures ids.Some? ==> forall i :: 0 <= i < |ids.value| ==> ids.value[i] == challenges[cid].hints[i].id
    {
      var ok := Get();
      var hints := challenges[cid].hints;
      ids := if ok then Some(seq(|hints|, i requires 0 <= i < |hints| => hints[i].id)) else None;
    }

    method GetHint(cid: int, id: int) returns (hint: Option<Hint>)
      requires cid in challenges
      modifies this`line
      ensures line == old(line).Read()
      ensures hint == if old(line).Next().fault == Served then Lookup(challenges[cid].hints, id) else None
    {
      var ok := Get();
      hint := if ok then Lookup(challenges[cid].hints, id) else None;
    }

    // ---------- writes to flags and hints ----------

    method SetFlags(cid: int, s: FlagState)
      requires cid in challenges
      modifies this
      ensures challenges == old(challenges)[cid := old(challenges)[cid].(flags := s.flags)]
      ensures FlagsOf(cid) == s
    {
      challenges := challenges[cid := challenges[cid].(flags := s.flags)];
      line := s.line;
    }

    method PostFlags(cid: int, content: string, typ: string, data: string) returns (ok: bool)
      requires cid in challenges && typ != ""
      modifies this
      ensures OnlyFlags(old(challenges), challenges, cid)
      ensures (FlagsOf(cid), ok)
           == PostFlagCall(old(FlagsOf(cid)), TakenFlags(old(challenges), cid), FlagSpec(content, typ, data))
    {
      var r := PostFlagCall(FlagsOf(cid), TakenFlags(challenges, cid), FlagSpec(content, typ, data));
      SetFlags(cid, r.0);
      ok := r.1;
    }

    method DeleteFlag(cid: int, id: int) returns (ok: bool)
      requires cid in challenges
      modifies this
      ensures OnlyFlags(old(challenges), challenges, cid)
      ensures (FlagsOf(cid), ok) == DeleteFlagCall(old(FlagsOf(cid)), id)
    {
      var r := DeleteFlagCall(FlagsOf(cid), id);
      SetFlags(cid, r.0);
      ok := r.1;
    }

    method SetHints(cid: int, s: HintState)
      requires cid in challenges
      modifies this
      ensures challenges == old(challenges)[cid := old(challenges)[cid].(hints := s.hints)]
      ensures HintsOf(cid) == s
    {
      challenges := challenges[cid := challenges[cid].(hints := s.hints)];
      line := s.line;
    }

    method PostHints(cid: int, d: HintSpec) returns (id: Option<int>)
      requires cid in challenges
      modifies this
      ensures OnlyHints(old(challenges), challenges, cid)
      ensures (HintsOf(cid), id) == PostHintCall(old(HintsOf(cid)), TakenHints(old(challenges), cid), d)
    {
      var r := PostHintCall(HintsOf(cid), TakenHints(challenges, cid), d);
      SetHints(cid, r.0);
      id := r.1;
    }

    method PatchHint(cid: int, id: int, d: HintSpec, want: seq<int>) returns (ok: bool)
      requires cid in challenges
      modifies this
      ensures OnlyHints(old(challenges), challenges, cid)
      ensures (HintsOf(cid), ok) == PatchHintCall(old(HintsOf(cid)), id, d, want)
    {
      var r := PatchHintCall(HintsOf(cid), id, d, want);
      SetHints(cid, r.0);
      ok := r.1;
    }

    method DeleteHint(cid: int, id: int) returns (ok: bool)
      requires cid in challenges
      modifies this
      ensures OnlyHints(old(challenges), challenges, cid)
      ensures (HintsOf(cid), ok) == DeleteHintCall(old(HintsOf(cid)), id)
    {
      var r := DeleteHintCall(HintsOf(cid), id);
      SetHints(cid, r.0);
      ok := r.1;
    }

    // ---------- writes to challenges ----------

    method PostChallenges(payload: PostPayload) returns (cid: Option<int>)
      modifies this
      ensures var id := FreshId(old(challenges).Keys, old(line).Next().id);
              && challenges == (if old(line).Next().fault == Refused then old(challenges)
                                else old(challenges)[id := Challenge(Posted(payload, old(line).Next().filler), [], [])])
              && cid == if old(line).Next().fault == Served then Some(id) else None
      ensures line == old(line).Sent(PostChallenge)
    {
      var reply := line.Next();
      var id := FreshId(challenges.Keys, reply.id);
      if reply.fault != Refused {
        challenges := challenges[id := Challenge(Posted(payload, reply.filler), [], [])];
      }
      line := line.Sent(PostChallenge);
      cid := if reply.fault == Served then Some(id) else None;
    }

    method PatchChallenge(cid: int, payload: PatchPayload) returns (ok: bool)
      modifies this
      ensures cid !in old(challenges) ==>
                challenges == old(challenges) && line == old(line).Rejected(Write.PatchChallenge(cid)) && !ok
      ensures cid in old(challenges) ==>
                && (var reply, ch := old(line).Next(), old(challenges)[cid];
                    var patched := Conversion.Patched(ch.record, payload, reply.filler);
                    challenges == if reply.fault == Refused then old(challenges)
                                  else old(challenges)[cid := ch.(record := patched)])
                && line == old(line).Sent(Write.PatchChallenge(cid))
                && (ok <==> old(line).Next().fault == Served)
    {
      if cid !in challenges {
        line := line.Rejected(Write.PatchChallenge(cid));
        return false;
      }
      var reply := line.Next();
      if reply.fault != Refused {
        challenges := challenges[cid := challenges[cid].(
          record := Conversion.Patched(challenges[cid].record, payload, reply.filler))];
      }
      line := line.Sent(Write.PatchChallenge(cid));
      ok := reply.fault == Served;
    }

    method DeleteChallenge(cid: int) returns (ok: bool)
      modifies this
      ensures cid !in old(challenges) ==>
                challenges == old(challenges) && line == old(line).Rejected(Write.DeleteChallenge(cid)) && !ok
      ensures cid in old(challenges) ==>
                && challenges == (if old(line).Next().fault == Refused then old(challenges)
                                  else old(challenges) - {cid})
                && line == old(line).Sent(Write.DeleteChallenge(cid))
                && (ok <==> old(line).Next().fault == Served)
    {
      if cid !in challenges {
        line := line.Rejected(Write.DeleteChallenge(cid));
        return false;
      }
      var reply := line.Next();
      if reply.fault != Refused {
        challenges := challenges - {cid};
      }
      line := line.Sent(Write.DeleteChallenge(cid));
      ok := reply.fault == Served;
    }
  }
}

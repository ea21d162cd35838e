/** What each operation does to the resource and to the server, said in terms of the
    specification's own fields and of the server's answers one by one. */
module Operations {
  import opened Wrappers
  import opened Ctfd
  import opened Keys
  import opened Conversion
  import opened FlagSync
  import opened HintSync
  import opened Lifecycle
  import LifecycleTheorems

  // ---------- the external name ----------

  /** The name is a decimal numeral of the id, which fits 64 bits. */
  predicate Names(name: string, cid: int) {
    IsNumeral(name) && NumeralValue(name) == cid && -0x8000_0000_0000_0000 <= cid <= 0x7fff_ffff_ffff_ffff
  }

  lemma {:induction false} NamesIffAtoi(name: string, cid: int)
    ensures Names(name, cid) <==> Atoi(name) == Some(cid)
  {
    hide IsNumeral, NumeralValue, Atoi;
    AtoiReadsNumerals(name);
  }

  /** A resource whose name is no such numeral has not been created: Observe finds nothing
      and reads nothing, Update fails and Delete succeeds, and neither sends anything. */
  lemma {:induction false} NotCreatedYet(p: Parameters, r: Resource, w: World, o: Orders)
    requires forall cid :: !Names(r.name, cid)
    ensures Observe(p, r, w) == (r, w, Absent)
    ensures Update(p, r, w, o) == (w, false)
    ensures Delete(r, w) == (w, true)
  {
    hide Names, Atoi;
    if Atoi(r.name).Some? {
      NamesIffAtoi(r.name, Atoi(r.name).value);
    }
  }

  /** So it is with a name that has any other character, as a resource's own name does. */
  lemma {:induction false} OtherNamesAreNotCreated(p: Parameters, r: Resource, w: World, o: Orders, i: nat)
    requires i < |r.name| && !('0' <= r.name[i] <= '9') && (i > 0 || (r.name[i] != '-' && r.name[i] != '+'))
    ensures Observe(p, r, w) == (r, w, Absent)
    ensures Update(p, r, w, o) == (w, false)
    ensures Delete(r, w) == (w, true)
  {
    OtherCharacter(r.name, i);
    NotCreatedYet(p, r, w, o);
  }

  // ---------- Observe ----------

  /** All the answers from the m-th to before the n-th serve their calls. */
  ghost predicate ServesFrom(line: Line, m: nat, n: nat) {
    forall k :: m <= k < n ==> line.Answer(k).fault == Served
  }

  lemma {:induction false} ReadManyServes(line: Line, n: nat)
    ensures line.ReadMany(n).1 <==> ServesFrom(line, 0, n)
    decreases n
  {
    if n > 0 {
      assert line.Answer(0) == line.Next();
      if line.Next().fault == Served {
        ReadManyServes(line.Read(), n - 1);
        ServesShift(line, 0, n - 1);
      }
    }
  }

  lemma {:induction false} ServesShift(line: Line, m: nat, n: nat)
    ensures ServesFrom(line.Read(), m, n) <==> ServesFrom(line, m + 1, n + 1)
  {
    if ServesFrom(line.Read(), m, n) {
      forall k | m + 1 <= k < n + 1 ensures line.Answer(k).fault == Served {
        assert line.Read().Answer(k - 1).fault == Served;
      }
    }
    if ServesFrom(line, m + 1, n + 1) {
      forall k | m <= k < n ensures line.Read().Answer(k).fault == Served {
        assert line.Answer(k + 1).fault == Served;
      }
    }
  }

  /** Observe answers by its reads in turn: the challenge, its requirements if any are
      wanted, its flags, the list of its hints and each hint. The first one failing means
      absence, the second is not missed, and any later one failing is an error. Only when
      all went well is the status recorded, and nothing is ever sent. */
  lemma {:induction false} ObserveOutcome(p: Parameters, r: Resource, w: World, cid: int)
    requires Names(r.name, cid)
    ensures var (r', w', seen) := Observe(p, r, w);
            && w'.challenges == w.challenges && w'.line.log == w.line.log && r'.name == r.name
            && (seen == Absent <==> w.line.Next().fault != Served || cid !in w.challenges)
            && (seen != Absent ==>
                  var ch, first := w.challenges[cid], if p.requirements.Some? then 2 else 1;
                  && (seen == Failed <==> !ServesFrom(w.line, first, first + 2 + |ch.hints|))
                  && (seen.Present? ==>
                        && r'.status.id == cid && r'.status.value == ch.record.value
                        && r'.status.state == ch.record.state && r'.status.typ == ch.record.typ
                        && r'.status.flags == |ch.flags| && r'.status.hints == |ch.hints|
                        && seen.upToDate == InSync(p, ch, if w.line.Answer(1).fault == Served
                                                          then ch.record.requirements else None)))
            && (!seen.Present? ==> r' == r)
  {
    NamesIffAtoi(r.name, cid);
    hide IsUpToDate, FlagsUpToDate, HintsUpToDate, Names;
    assert Atoi("") == None;
    if w.line.Next().fault == Served && cid in w.challenges {
      ObserveLiveOutcome(p, r, w.(line := w.line.Read()), cid);
      ServesShift(w.line, 0, 2 + |w.challenges[cid].hints|);
      ServesShift(w.line, 1, 3 + |w.challenges[cid].hints|);
      assert w.line.Read().Next() == w.line.Answer(1);
      if p.requirements.None? {
        RequirementsUnread(p, w.challenges[cid]);
      }
    }
  }

  lemma {:induction false} RequirementsUnread(p: Parameters, ch: Challenge)
    requires p.requirements.None?
    ensures InSync(p, ch, None) <==> InSync(p, ch, ch.record.requirements)
  {
    LifecycleTheorems.RequirementsOnlyIfSpecified(p, ch.record, None, ch.record.requirements);
  }

  lemma {:induction false} ObserveLiveOutcome(p: Parameters, r: Resource, w: World, cid: int)
    requires cid in w.challenges
    ensures var (r', w', seen) := ObserveLive(p, r, w, cid);
            var ch, first := w.challenges[cid], if p.requirements.Some? then 1 else 0;
            && w'.challenges == w.challenges && w'.line.log == w.line.log && r'.name == r.name && seen != Absent
            && (seen == Failed <==> !ServesFrom(w.line, first, first + 2 + |ch.hints|))
            && (seen.Present? ==>
                  var served := p.requirements.Some? && w.line.Next().fault == Served;
                  && r'.status == StatusOf(cid, ch)
                  && seen.upToDate == InSync(p, ch, if served then ch.record.requirements else None))
            && (seen == Failed ==> r' == r)
  {
    hide InSync;
    var n := |w.challenges[cid].hints|;
    var line1 := if p.requirements.Some? then w.line.Read() else w.line;
    ReadsInTwo(line1, 1 + n);
    ReadManyServes(line1, 2 + n);
    ServesShift(w.line, 0, 2 + n);
    ReadManyKeepsLog(line1, 1);
    ReadManyKeepsLog(line1.ReadMany(1).0, 1 + n);
  }

  lemma {:induction false} ReadsInTwo(line: Line, n: nat)
    ensures line.ReadMany(1 + n).1 <==> line.ReadMany(1).1 && line.ReadMany(1).0.ReadMany(n).1
  {
  }

  /** A verdict of up to date means the type is the one set, or standard if none is. */
  lemma {:induction false} UpToDateMeansType(p: Parameters, r: Resource, w: World, cid: int)
    requires Names(r.name, cid) && Observe(p, r, w).2 == Present(true)
    ensures cid in w.challenges
    ensures w.challenges[cid].record.typ == if p.typ == "" then "standard" else p.typ
  {
    hide Names;
    ObserveOutcome(p, r, w, cid);
    hide FlagsUpToDate, HintsUpToDate;
  }

  // ---------- Create ----------

  /** A creation that takes effect adds one challenge, under an id not in use, with the
      parameters set, without flags or hints. If it is also answered, its id becomes the
      name; if not, the resource stays as it was. */
  lemma {:induction false} CreateOutcome(p: Parameters, r: Resource, w: World)
    ensures var (r', w', ok) := Create(p, r, w);
            var reply := w.line.Next();
            && (ok <==> reply.fault == Served) && (!ok ==> r' == r) && r'.status == r.status
            && w'.line.log == w.line.log + [Entry(PostChallenge, reply.fault != Refused)]
            && (reply.fault == Refused ==> w'.challenges == w.challenges)
            && (reply.fault != Refused ==>
                  exists cid :: cid !in w.challenges && CreatedAs(p, reply.filler, w.challenges, w'.challenges, cid)
                                && (ok ==> IsNumeral(r'.name) && NumeralValue(r'.name) == cid))
  {
    var reply := w.line.Next();
    var cid := FreshId(w.challenges.Keys, reply.id);
    ItoaIsCanonical(cid);
    hide IsNumeral, NumeralValue, Itoa;
    CreatedHolds(p, reply.filler);
    assert reply.fault != Refused ==> CreatedAs(p, reply.filler, w.challenges, Create(p, r, w).1.challenges, cid);
  }

  ghost predicate CreatedAs(p: Parameters, filler: Record, before: map<int, Challenge>, after: map<int, Challenge>,
      cid: int)
  {
    && cid in after && after == before[cid := after[cid]] && after[cid].flags == [] && after[cid].hints == []
    && HoldsParameters(p, if p.typ == "" then "standard" else p.typ, if p.state == "" then filler.state else p.state,
                       filler, after[cid].record)
    && (p.typ in {"", "standard"} && p.value.None? ==> after[cid].record.value == 0)
  }

  lemma {:induction false} CreatedHolds(p: Parameters, filler: Record)
    ensures var rec := Posted(PostParams(p), filler);
            && HoldsParameters(p, if p.typ == "" then "standard" else p.typ,
                               if p.state == "" then filler.state else p.state, filler, rec)
            && (p.typ in {"", "standard"} && p.value.None? ==> rec.value == 0)
  {
  }

  // ---------- Update ----------

  /** The patch of an update that takes effect stores the parameters set, keeps the type,
      and sends back the state seen if none is set; one that is refused changes nothing. */
  lemma {:induction false} UpdateStores(p: Parameters, r: Resource, w: World, o: Orders, cid: int)
    requires Names(r.name, cid) && cid in w.challenges
    ensures var w' := Update(p, r, w, o).0;
            var reply, before := w.line.Next(), w.challenges[cid];
            && cid in w'.challenges && w'.challenges == w.challenges[cid := w'.challenges[cid]]
            && (reply.fault == Refused ==> w'.challenges == w.challenges)
            && (reply.fault != Refused ==>
                  && HoldsParameters(p, before.record.typ, if p.state == "" then r.status.state else p.state,
                                     reply.filler, w'.challenges[cid].record)
                  && (before.record.typ == "standard" && p.value.None? ==>
                        w'.challenges[cid].record.value == reply.filler.value))
            && (reply.fault != Served ==>
                  && w'.challenges[cid].flags == before.flags && w'.challenges[cid].hints == before.hints
                  && w'.line.log == w.line.log + [Entry(PatchChallenge(cid), reply.fault != Refused)])
  {
    NamesIffAtoi(r.name, cid);
    hide SyncFlags, SyncHints, Names, Atoi, HoldsParameters, Conversion.Patched, PatchParams;
    PatchedHolds(p, w.challenges[cid].record, r.status.state, w.line.Next().filler);
  }

  lemma {:induction false} PatchedHolds(p: Parameters, before: Record, current: string, filler: Record)
    ensures var rec := Conversion.Patched(before, PatchParams(p, current), filler);
            && HoldsParameters(p, before.typ, if p.state == "" then current else p.state, filler, rec)
            && (before.typ == "standard" && p.value.None? ==> rec.value == filler.value)
  {
  }

  /** An update of a challenge that is not there fails, and changes nothing. */
  lemma {:induction false} UpdateOfNothing(p: Parameters, r: Resource, w: World, o: Orders, cid: int)
    requires Names(r.name, cid) && cid !in w.challenges
    ensures Update(p, r, w, o) == (w.(line := w.line.Rejected(PatchChallenge(cid))), false)
  {
    NamesIffAtoi(r.name, cid);
  }

  // ---------- Delete ----------

  /** A deletion succeeds exactly if the challenge is there and the call is served; it is
      gone exactly if the call takes effect. */
  lemma {:induction false} DeleteOutcome(r: Resource, w: World, cid: int)
    requires Names(r.name, cid)
    ensures var (w', ok) := Delete(r, w);
            && (ok <==> cid in w.challenges && w.line.Next().fault == Served)
            && w'.challenges == (if w.line.Next().fault == Refused then w.challenges else w.challenges - {cid})
            && w'.line.log == w.line.log + [Entry(DeleteChallenge(cid), cid in w.challenges
                                                                         && w.line.Next().fault != Refused)]
  {
    NamesIffAtoi(r.name, cid);
    hide Names, Atoi;
    assert cid !in w.challenges ==> w.challenges - {cid} == w.challenges;
  }

  // ---------- one reconcile ----------

  /** A reconcile that finds all up to date, or cannot tell, sends nothing. */
  lemma {:induction false} NothingToDo(p: Parameters, r: Resource, w: World, o: Orders, cid: int)
    requires Names(r.name, cid) && Observe(p, r, w).2 in {Failed, Present(true)}
    ensures var (r', w') := Reconcile(p, r, w, o);
            r'.name == r.name && w'.challenges == w.challenges && w'.line.log == w.line.log
  {
    hide Observe, Update, Names;
    ObserveOutcome(p, r, w, cid);
  }

  // ---------- hints ----------

  /** A hint that is posted is appended, under an id that nothing mentions, with the
      declared content, title and cost and without requirements. */
  lemma {:induction false} PostStores(s: HintState, taken: set<int>, d: HintSpec)
    ensures var (s', id) := PostHintCall(s, taken, d);
            && (id.Some? <==> s.line.Next().fault == Served)
            && (s.line.Next().fault == Refused ==> s'.hints == s.hints)
            && (s.line.Next().fault != Refused ==>
                  && |s'.hints| == |s.hints| + 1 && s'.hints[..|s.hints|] == s.hints
                  && var h := s'.hints[|s.hints|];
                  && h.content == Some(d.content) && h.title == d.title && h.cost == d.cost
                  && h.requirements == None && (id.Some? ==> h.id == id.value)
                  && h.id >= 0 && h.id !in taken && forall x :: x in s.hints ==> x.id != h.id)
  {
  }

  /** A patch that takes effect stores the declared content, cost, prerequisites, title if
      there is one and anonymize if it is set, and touches no other hint. */
  lemma {:induction false} PatchStores(s: HintState, id: int, d: HintSpec, want: seq<int>, p: nat)
    requires p < |s.hints|
    ensures var (s', ok) := PatchHintCall(s, id, d, want);
            && (ok <==> s.line.Next().fault == Served) && |s'.hints| == |s.hints|
            && (s.hints[p].id != id || s.line.Next().fault == Refused ==> s'.hints[p] == s.hints[p])
            && (s.hints[p].id == id && s.line.Next().fault != Refused ==>
                  var h := s'.hints[p];
                  && h.id == id && h.content == Some(d.content) && h.cost == d.cost
                  && (d.title.Some? ==> h.title == d.title)
                  && h.requirements.Some? && h.requirements.value.prerequisites == want
                  && (d.anonymize.Some? ==> h.requirements.value.anonymize == d.anonymize))
  {
  }

  /** Keys are equal exactly for a listed hint that has the declared content, title and
      cost, none and empty alike, if the titles hold no NUL. */
  lemma {:induction false} SameHintKeyIffSameValue(h: Hint, d: HintSpec)
    requires (h.title.Some? ==> '\0' !in h.title.value) && (d.title.Some? ==> '\0' !in d.title.value)
    ensures KeyOf(h) == WantedKey(d) <==>
              && (h.content == Some(d.content) || (h.content.None? && d.content == ""))
              && (h.title == d.title || (h.title in {None, Some("")} && d.title in {None, Some("")}))
              && h.cost == d.cost
  {
    HintKeyIdentifiesValue(Deref(h.content), h.title, h.cost, d.content, d.title, d.cost);
  }
}

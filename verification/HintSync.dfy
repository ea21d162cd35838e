/** Hint reconciliation as a function of the server's hints and its answers, and
    what holds of it whichever calls fail. */
module HintSync {
  import opened Wrappers
  import opened Ctfd
  import opened Keys
  import opened Matching
  import opened PrereqGraph

  // ---------- the specification, as keys and as a graph ----------

  function KeyOf(h: Hint): string {
    HintKey(Deref(h.content), h.title, h.cost)
  }

  function WantedKey(d: HintSpec): string {
    HintKey(d.content, d.title, d.cost)
  }

  function Items(hints: seq<Hint>): (items: seq<Item>)
    ensures |items| == |hints|
  {
    seq(|hints|, i requires 0 <= i < |hints| => Item(hints[i].id, KeyOf(hints[i])))
  }

  function Wanted(desired: seq<HintSpec>): (keys: seq<string>)
    ensures |keys| == |desired|
  {
    seq(|desired|, i requires 0 <= i < |desired| => WantedKey(desired[i]))
  }

  function Prereqs(desired: seq<HintSpec>): (g: Graph)
    ensures |g| == |desired|
  {
    seq(|desired|, i requires 0 <= i < |desired| => desired[i].prerequisites)
  }

  /** The id that desired hint i has on the server, or -1. */
  function IdOf(desired: seq<HintSpec>, hints: seq<Hint>, i: nat): int
    requires i < |desired|
  {
    Bind(Wanted(desired), Items(hints), i)
  }

  function Ids(desired: seq<HintSpec>, hints: seq<Hint>): (ids: seq<int>)
    ensures |ids| == |desired|
  {
    Plan(Wanted(desired), Items(hints))
  }

  function Unwanted(desired: seq<HintSpec>, hints: seq<Hint>): seq<int> {
    Surplus(Wanted(desired), Items(hints))
  }

  /** How many hints of one value the server holds, and how many are wanted. */
  function Held(hints: seq<Hint>, k: string): nat {
    |Queue(Items(hints), k)|
  }

  function WantedCount(desired: seq<HintSpec>, k: string): nat {
    multiset(Wanted(desired))[k]
  }

  function MapPrereqs(idx: seq<int>, ids: seq<int>): seq<int>
    requires forall p :: p in idx ==> 0 <= p < |ids|
  {
    seq(|idx|, k requires 0 <= k < |idx| => assert idx[k] in idx; ids[idx[k]])
  }

  /** The hint with an id; were ids to repeat, the last one listed. */
  function Lookup(hints: seq<Hint>, id: int): Option<Hint> {
    if hints == [] then None
    else
      var last := hints[|hints| - 1];
      if last.id == id then Some(last) else Lookup(hints[..|hints| - 1], id)
  }

  function ReqOf(h: Option<Hint>): Option<Requirements> {
    match h
    case None => None
    case Some(v) => v.requirements
  }

  function EqAnonymize(want: Option<string>, req: Option<Requirements>): bool {
    want.None? || (req.Some? && req.value.anonymize == want)
  }

  /** A hint's requirements need no patch. */
  predicate Settled(d: HintSpec, want: seq<int>, req: Option<Requirements>) {
    multiset(want) == multiset(PrereqsOf(req)) && (d.prerequisites == [] || EqAnonymize(d.anonymize, req))
  }

  // ---------- the server calls ----------

  datatype HintState = HintState(hints: seq<Hint>, line: Line)

  /** The ids in use as a hint or as somebody's prerequisite. */
  function Mentioned(hints: seq<Hint>): set<int> {
    (set h | h in hints :: h.id) + (set h, p | h in hints && p in PrereqsOf(h.requirements) :: p)
  }

  /** Creation appends a hint without requirements under an id that nothing uses;
      taken are the ids in use elsewhere on the server. */
  function PostHintCall(s: HintState, taken: set<int>, d: HintSpec): (HintState, Option<int>) {
    var r := s.line.Next();
    var id := FreshId(taken + Mentioned(s.hints), r.id);
    var created := Hint(id, Some(d.content), d.title, d.cost, None);
    (HintState(if r.fault == Refused then s.hints else s.hints + [created], s.line.Sent(PostHint)),
     if r.fault == Served then Some(id) else None)
  }

  function Patched(h: Hint, d: HintSpec, want: seq<int>, keep: bool): Hint {
    var title := if d.title.None? && keep then h.title else d.title;
    var anonymize := if d.anonymize.None? && keep && h.requirements.Some? then h.requirements.value.anonymize
                     else d.anonymize;
    Hint(h.id, Some(d.content), title, d.cost, Some(Requirements(anonymize, want)))
  }

  function PatchWhere(hints: seq<Hint>, id: int, d: HintSpec, want: seq<int>, keep: bool): (r: seq<Hint>)
    ensures |r| == |hints|
  {
    seq(|hints|, i requires 0 <= i < |hints| =>
      if hints[i].id == id then Patched(hints[i], d, want, keep) else hints[i])
  }

  function PatchHintCall(s: HintState, id: int, d: HintSpec, want: seq<int>): (HintState, bool) {
    var r := s.line.Next();
    (HintState(if r.fault == Refused then s.hints else PatchWhere(s.hints, id, d, want, r.keepUnset),
               s.line.Sent(PatchHint(id))),
     r.fault == Served)
  }

  function DropHint(hints: seq<Hint>, id: int): seq<Hint> {
    if hints == [] then []
    else
      var init, last := hints[..|hints| - 1], hints[|hints| - 1];
      if last.id == id then DropHint(init, id) else DropHint(init, id) + [last]
  }

  function DeleteHintCall(s: HintState, id: int): (HintState, bool) {
    var r := s.line.Next();
    (HintState(if r.fault == Refused then s.hints else DropHint(s.hints, id), s.line.Sent(DeleteHint(id))),
     r.fault == Served)
  }

  // ---------- the phases of a synchronisation ----------

  datatype Created = Created(state: HintState, ids: seq<int>, ok: bool)

  function CreateMissing(desired: seq<HintSpec>, i: nat, ids: seq<int>, taken: set<int>, s: HintState): (c: Created)
    requires i <= |desired| == |ids|
    ensures |c.ids| == |desired|
    decreases |desired| - i
  {
    if i == |desired| then Created(s, ids, true)
    else if ids[i] >= 0 then CreateMissing(desired, i + 1, ids, taken, s)
    else
      var (s', id) := PostHintCall(s, taken, desired[i]);
      if id.None? then Created(s', ids, false)
      else CreateMissing(desired, i + 1, ids[i := id.value], taken, s')
  }

  ghost predicate Resolvable(desired: seq<HintSpec>) {
    forall i, p :: 0 <= i < |desired| && p in desired[i].prerequisites ==> 0 <= p < |desired|
  }

  ghost function Wire(desired: seq<HintSpec>, existing: seq<Hint>, ids: seq<int>, i: nat,
      s: HintState): (HintState, bool)
    requires i <= |desired| == |ids| && Resolvable(desired)
    decreases |desired| - i
  {
    if i == |desired| then (s, true)
    else
      var d := desired[i];
      var want := MapPrereqs(d.prerequisites, ids);
      if Settled(d, want, ReqOf(Lookup(existing, ids[i]))) then Wire(desired, existing, ids, i + 1, s)
      else
        var (s', ok) := PatchHintCall(s, ids[i], d, want);
        if !ok then (s', false) else Wire(desired, existing, ids, i + 1, s')
  }

  function DeleteAll(deletes: seq<int>, s: HintState): (HintState, bool) {
    if deletes == [] then (s, true)
    else
      var (s', ok) := DeleteHintCall(s, deletes[0]);
      if !ok then (s', false) else DeleteAll(deletes[1..], s')
  }

  /** Listing reads the hint list and then each hint in full. */
  function ListHints(s: HintState): (HintState, bool) {
    var (line, ok) := s.line.ReadMany(1 + |s.hints|);
    (s.(line := line), ok)
  }

  ghost function WireAndDelete(desired: seq<HintSpec>, existing: seq<Hint>, ids: seq<int>, s: HintState,
      deletes: seq<int>): (HintState, bool)
    requires |desired| == |ids| && Resolvable(desired)
  {
    var (s', wired) := Wire(desired, existing, ids, 0, s);
    if !wired then (s', false) else DeleteAll(deletes, s')
  }

  /** One synchronisation. The order of deletes is whatever order the source's map
      iteration happens to give, so it is an argument. */
  ghost function SyncHints(desired: seq<HintSpec>, taken: set<int>, s: HintState,
      deletes: seq<int>): (HintState, bool) {
    if !Unlockable(Prereqs(desired)) then (s, false)
    else
      ValidMeansResolvable(desired);
      var (s1, listed) := ListHints(s);
      if !listed then (s1, false)
      else
        var c := CreateMissing(desired, 0, Ids(desired, s.hints), taken, s1);
        if !c.ok then (c.state, false) else WireAndDelete(desired, s.hints, c.ids, c.state, deletes)
  }

  ghost predicate IsDeleteOrder(desired: seq<HintSpec>, hints: seq<Hint>, deletes: seq<int>) {
    multiset(deletes) == multiset(Unwanted(desired, hints))
  }

  lemma {:induction false} ValidMeansResolvable(desired: seq<HintSpec>)
    requires Unlockable(Prereqs(desired))
    ensures Resolvable(desired)
  {
    UnlockableMeansSound(Prereqs(desired));
    forall i, p | 0 <= i < |desired| && p in desired[i].prerequisites ensures 0 <= p < |desired| {
      assert p in Prereqs(desired)[i];
    }
  }

  // ---------- what Observe compares ----------

  /** Every desired hint exists on the server with the requirements it should have. */
  ghost predicate InPlace(desired: seq<HintSpec>, hints: seq<Hint>) {
    Resolvable(desired) && forall i :: 0 <= i < |desired| ==> PlacedAt(desired, hints, i)
  }

  ghost predicate PlacedAt(desired: seq<HintSpec>, hints: seq<Hint>, i: nat)
    requires i < |desired| && Resolvable(desired)
  {
    && IdOf(desired, hints, i) >= 0
    && Settled(desired[i], MapPrereqs(desired[i].prerequisites, Ids(desired, hints)),
               ReqOf(Lookup(hints, IdOf(desired, hints, i))))
  }

  ghost predicate HintsUpToDate(desired: seq<HintSpec>, hints: seq<Hint>) {
    Unlockable(Prereqs(desired)) && Unwanted(desired, hints) == [] && InPlace(desired, hints)
  }

  // ---------- what every synchronisation keeps ----------

  /** What the server guarantees of its hints: unique ids that are not negative. */
  ghost predicate Sound(hints: seq<Hint>) {
    UniqueIds(Items(hints))
  }

  // ---------- titles that are not sent ----------

  function TitleOf(h: Option<Hint>): string {
    match h
    case None => ""
    case Some(v) => Deref(v.title)
  }

  /** A patch that does not send a title, and a server that keeps the one it has. */
  predicate LeavesTitle(d: HintSpec, title: string, keep: bool) {
    keep && d.title.None? && title != ""
  }

  /** A desired hint without a title is matched with a listed one that has a title.
      Keys alone allow it: only a NUL in the listed title can bring it about. */
  ghost predicate MisTitled(desired: seq<HintSpec>, hints: seq<Hint>, i: nat)
    requires i < |desired|
  {
    && desired[i].title.None? && IdOf(desired, hints, i) >= 0
    && TitleOf(Lookup(hints, IdOf(desired, hints, i))) != ""
  }

  ghost predicate TitlesAgree(desired: seq<HintSpec>, hints: seq<Hint>) {
    forall i :: 0 <= i < |desired| ==> !MisTitled(desired, hints, i)
  }

  ghost predicate SettledAt(desired: seq<HintSpec>, existing: seq<Hint>, ids: seq<int>, j: nat)
    requires j < |desired| == |ids| && Resolvable(desired)
  {
    Settled(desired[j], MapPrereqs(desired[j].prerequisites, ids), ReqOf(Lookup(existing, ids[j])))
  }

  /** A server hint is what a desired hint asks for: its value, the hints it should
      require, and, where it requires any and the user set it, how it is anonymized. */
  ghost predicate Fulfils(desired: seq<HintSpec>, hints: seq<Hint>, d: nat, h: Hint)
    requires d < |desired|
  {
    && h.id == IdOf(desired, hints, d)
    && KeyOf(h) == WantedKey(desired[d])
    && multiset(PrereqsOf(h.requirements)) == WantedBy(desired, hints, desired[d].prerequisites)
    && (desired[d].prerequisites != [] && desired[d].anonymize.Some? ==>
          h.requirements.Some? && h.requirements.value.anonymize == desired[d].anonymize)
  }

  ghost predicate Fulfilled(desired: seq<HintSpec>, hints: seq<Hint>, d: nat)
    requires d < |desired|
  {
    exists p :: 0 <= p < |hints| && Fulfils(desired, hints, d, hints[p])
  }

  /** The ids the listed indexes have on the server, as a bag. */
  ghost function WantedBy(desired: seq<HintSpec>, hints: seq<Hint>, indexes: seq<int>): multiset<int> {
    if indexes == [] then multiset{}
    else
      var i := indexes[|indexes| - 1];
      WantedBy(desired, hints, indexes[..|indexes| - 1])
      + if 0 <= i < |desired| then multiset{IdOf(desired, hints, i)} else multiset{}
  }

  /** Hint i has to be patched: a hint it requires is yet to be created; or it is listed
      without being what is asked for; or it is yet to be created and requires others. */
  ghost predicate NeedsPatch(desired: seq<HintSpec>, hints: seq<Hint>, i: nat)
    requires i < |desired|
  {
    || (exists p :: p in desired[i].prerequisites && 0 <= p < |desired| && IdOf(desired, hints, p) < 0)
    || (if IdOf(desired, hints, i) >= 0 then !Fulfilled(desired, hints, i) else desired[i].prerequisites != [])
  }

  /** How many of the first n desired hints are missing, and how many need a patch. */
  ghost function Missing(desired: seq<HintSpec>, hints: seq<Hint>, n: nat): nat
    requires n <= |desired|
  {
    if n == 0 then 0
    else Missing(desired, hints, n - 1) + if IdOf(desired, hints, n - 1) < 0 then 1 else 0
  }

  ghost function Patches(desired: seq<HintSpec>, hints: seq<Hint>, n: nat): nat
    requires n <= |desired| && Resolvable(desired)
  {
    if n == 0 then 0
    else Patches(desired, hints, n - 1) + if NeedsPatch(desired, hints, n - 1) then 1 else 0
  }

  /** The answer that the creation or the patch of hint i gets: the listing and each
      listed hint come first, and every creation comes before the first patch. */
  ghost function CreateTurn(desired: seq<HintSpec>, hints: seq<Hint>, i: nat): nat
    requires i <= |desired|
  {
    1 + |hints| + Missing(desired, hints, i)
  }

  ghost function PatchTurn(desired: seq<HintSpec>, hints: seq<Hint>, i: nat): nat
    requires i <= |desired| && Resolvable(desired)
  {
    CreateTurn(desired, hints, |desired|) + Patches(desired, hints, i)
  }

  /** The n-th answer is reached and given to a call that takes effect, and it keeps
      what is not sent. */
  ghost predicate KeepsAt(line: Line, n: nat) {
    line.Serves(n) && line.Answer(n).fault != Refused && line.Answer(n).keepUnset
  }

  /** Some mis-titled hint needs a patch, and the server then keeps its title. */
  ghost predicate Spoiled(desired: seq<HintSpec>, hints: seq<Hint>, line: Line) {
    && Unlockable(Prereqs(desired)) && Resolvable(desired)
    && exists i :: 0 <= i < |desired| && SpoiledAt(desired, hints, line, i)
  }

  /** What of this shows before a call is made: some server may then spoil the hints. */
  ghost predicate CanSpoil(desired: seq<HintSpec>, hints: seq<Hint>) {
    && Resolvable(desired)
    && exists i :: 0 <= i < |desired| && MisTitled(desired, hints, i) && NeedsPatch(desired, hints, i)
  }

  ghost predicate SpoiledAt(desired: seq<HintSpec>, hints: seq<Hint>, line: Line, i: nat)
    requires i < |desired| && Resolvable(desired)
  {
    && MisTitled(desired, hints, i) && NeedsPatch(desired, hints, i)
    && KeepsAt(line, PatchTurn(desired, hints, i))
  }

  ghost predicate HasId(hints: seq<Hint>, id: int) {
    Lists(Items(hints), id)
  }

  /** How the hints may move while the specification stands: each value's count
      towards the wanted count; no desired hint changes its id; hints once in place
      stay in place; nothing is deleted before all of them are in place; and titles
      that agree go on agreeing. */
  ghost predicate Progress(desired: seq<HintSpec>, a: seq<Hint>, b: seq<Hint>) {
    && Sound(b)
    && (forall k :: Towards(Held(a, k), Held(b, k), WantedCount(desired, k)))
    && (forall i :: 0 <= i < |desired| && IdOf(desired, a, i) >= 0 ==> IdOf(desired, b, i) == IdOf(desired, a, i))
    && (InPlace(desired, a) ==> InPlace(desired, b))
    && (forall id :: HasId(a, id) && !HasId(b, id) ==> InPlace(desired, b))
    && (TitlesAgree(desired, a) ==> TitlesAgree(desired, b))
  }

  lemma {:induction false} ProgressTransitive(desired: seq<HintSpec>, a: seq<Hint>, b: seq<Hint>, c: seq<Hint>)
    ensures Progress(desired, a, b) && Progress(desired, b, c) ==> Progress(desired, a, c)
  {
    if Progress(desired, a, b) && Progress(desired, b, c) {
      ProgressComposes(desired, a, b, c);
    }
  }

  lemma {:induction false} ProgressComposes(desired: seq<HintSpec>, a: seq<Hint>, b: seq<Hint>, c: seq<Hint>)
    requires Progress(desired, a, b) && Progress(desired, b, c)
    ensures Progress(desired, a, c)
  {
    forall k ensures Towards(Held(a, k), Held(c, k), WantedCount(desired, k)) {
      assert Towards(Held(a, k), Held(b, k), WantedCount(desired, k));
      assert Towards(Held(b, k), Held(c, k), WantedCount(desired, k));
    }
    forall i | 0 <= i < |desired| && IdOf(desired, a, i) >= 0
      ensures IdOf(desired, c, i) == IdOf(desired, a, i)
    {
      assert IdOf(desired, b, i) == IdOf(desired, a, i);
    }
    forall id | HasId(a, id) && !HasId(c, id) ensures InPlace(desired, c) {
      if !HasId(b, id) {
        assert InPlace(desired, b);
      }
    }
  }
}

/** The challenge's own fields: what is sent on creation and update, how the server
    stores it, and what Observe compares. */
module Conversion {
  import opened Wrappers
  import opened Ctfd

  const DEFAULT_TYPE := "standard"

  /** The desired parameters of a challenge. An empty type or state and an absent
      optional field are ones the user left unset. */
  datatype Parameters = Parameters(
    name: string, category: string, description: string, typ: string, state: string, value: Option<int>,
    initial: Option<int>, decay: Option<int>, minimum: Option<int>, maxAttempts: Option<int>, nextId: Option<int>,
    decayFunction: Option<string>, connectionInfo: Option<string>, attribution: Option<string>,
    requirements: Option<Requirements>, flags: seq<FlagSpec>, hints: seq<HintSpec>)

  function TypeOrDefault(t: string): string {
    if t == "" then DEFAULT_TYPE else t
  }

  datatype PostPayload = PostPayload(
    name: string, category: string, description: string, typ: string, state: string, value: int,
    initial: Option<int>, decay: Option<int>, minimum: Option<int>, maxAttempts: Option<int>, nextId: Option<int>,
    decayFunction: Option<string>, connectionInfo: Option<string>, attribution: Option<string>,
    requirements: Option<Requirements>)

  /** An update carries no type. */
  datatype PatchPayload = PatchPayload(
    name: string, category: string, description: string, state: string, value: Option<int>,
    initial: Option<int>, decay: Option<int>, minimum: Option<int>, maxAttempts: Option<int>, nextId: Option<int>,
    decayFunction: Option<string>, connectionInfo: Option<string>, attribution: Option<string>,
    requirements: Option<Requirements>)

  function PostParams(p: Parameters): PostPayload {
    PostPayload(p.name, p.category, p.description, TypeOrDefault(p.typ), p.state, Or(p.value, 0),
                p.initial, p.decay, p.minimum, p.maxAttempts, p.nextId,
                p.decayFunction, p.connectionInfo, p.attribution, p.requirements)
  }

  /** current is the state seen by the last Observe; it is sent back unless the user
      manages the state. */
  function PatchParams(p: Parameters, current: string): PatchPayload {
    PatchPayload(p.name, p.category, p.description, if p.state == "" then current else p.state, p.value,
                 p.initial, p.decay, p.minimum, p.maxAttempts, p.nextId,
                 p.decayFunction, p.connectionInfo, p.attribution, p.requirements)
  }

  // ---------- how the server stores it ----------

  function Or<T>(sent: Option<T>, otherwise: T): T {
    match sent
    case Some(v) => v
    case None => otherwise
  }

  function Filled<T>(sent: Option<T>, filler: Option<T>): Option<T> {
    if sent.Some? then sent else filler
  }

  /** What is sent is stored; only a standard challenge has a value of its own; what
      is not sent is up to the server, which may keep, clear or recompute it. */
  function Patched(before: Record, p: PatchPayload, filler: Record): Record {
    Record(p.name, p.category, p.description, before.typ, p.state,
           if before.typ == DEFAULT_TYPE then Or(p.value, filler.value) else filler.value,
           Filled(p.initial, filler.initial), Filled(p.decay, filler.decay), Filled(p.minimum, filler.minimum),
           Filled(p.maxAttempts, filler.maxAttempts), Filled(p.nextId, filler.nextId),
           Filled(p.decayFunction, filler.decayFunction), Filled(p.connectionInfo, filler.connectionInfo),
           Filled(p.attribution, filler.attribution), Filled(p.requirements, filler.requirements))
  }

  /** An empty state lets the server choose one. */
  function Posted(p: PostPayload, filler: Record): Record {
    Record(p.name, p.category, p.description, p.typ, if p.state == "" then filler.state else p.state,
           if p.typ == DEFAULT_TYPE then p.value else filler.value,
           Filled(p.initial, filler.initial), Filled(p.decay, filler.decay), Filled(p.minimum, filler.minimum),
           Filled(p.maxAttempts, filler.maxAttempts), Filled(p.nextId, filler.nextId),
           Filled(p.decayFunction, filler.decayFunction), Filled(p.connectionInfo, filler.connectionInfo),
           Filled(p.attribution, filler.attribution), Filled(p.requirements, filler.requirements))
  }

  // ---------- what Observe compares ----------

  /** Holds unless the desired value is set and differs from the observed one. */
  predicate Eq<T(==)>(want: Option<T>, got: Option<T>) {
    want.None? || got == want
  }

  predicate IsUpToDate(p: Parameters, ch: Record, req: Option<Requirements>) {
    && ch.name == p.name && ch.category == p.category && ch.description == p.description
    && (p.state != "" ==> ch.state == p.state)
    && ch.typ == TypeOrDefault(p.typ)
    && (TypeOrDefault(p.typ) == DEFAULT_TYPE && p.value.Some? ==> ch.value == p.value.value)
    && Eq(p.initial, ch.initial) && Eq(p.decay, ch.decay) && Eq(p.minimum, ch.minimum)
    && Eq(p.maxAttempts, ch.maxAttempts) && Eq(p.nextId, ch.nextId)
    && Eq(p.decayFunction, ch.decayFunction) && Eq(p.connectionInfo, ch.connectionInfo)
    && Eq(p.attribution, ch.attribution)
    && (p.requirements.Some? ==>
          multiset(p.requirements.value.prerequisites) == multiset(PrereqsOf(req)))
  }

  /** The type that the user asks for: the one set, or a standard challenge. */
  predicate RightType(p: Parameters, typ: string) {
    if p.typ == "" then typ == "standard" else typ == p.typ
  }

  /** An update brings every field in line except the type, which it does not send:
      the result is up to date exactly when the type already was. */
  lemma {:induction false} PatchConvergesIffTypeMatches(p: Parameters, before: Record, current: string, filler: Record)
    ensures var rec := Patched(before, PatchParams(p, current), filler);
            IsUpToDate(p, rec, rec.requirements) <==> RightType(p, before.typ)
  {
  }

  /** The comparison agrees with the update: a challenge is up to date exactly when its
      type is right and an update, by a server that keeps what is not sent, would leave
      it as it is, prerequisites as a bag and their anonymizing aside. */
  lemma {:induction false} UpToDateIffPatchIsIdle(p: Parameters, ch: Record)
    ensures var kept := Patched(ch, PatchParams(p, ch.state), ch);
            IsUpToDate(p, ch, ch.requirements) <==>
              && RightType(p, ch.typ)
              && kept.(requirements := None) == ch.(requirements := None)
              && multiset(PrereqsOf(kept.requirements)) == multiset(PrereqsOf(ch.requirements))
  {
  }

  /** A field that is set is stored as it is set; one that is not set is not sent. */
  predicate Stored<T(==)>(want: Option<T>, filler: Option<T>, got: Option<T>) {
    (want.Some? ==> got == want) && (want.None? ==> got == filler)
  }

  /** A record holds the parameters, field by field, the type and state aside, which are
      given; what is not set holds what the server put there. */
  predicate HoldsParameters(p: Parameters, typ: string, state: string, filler: Record, rec: Record) {
    && rec.name == p.name && rec.category == p.category && rec.description == p.description
    && rec.typ == typ && rec.state == state
    && (typ == "standard" && p.value.Some? ==> rec.value == p.value.value)
    && (typ != "standard" ==> rec.value == filler.value)
    && Stored(p.initial, filler.initial, rec.initial) && Stored(p.decay, filler.decay, rec.decay)
    && Stored(p.minimum, filler.minimum, rec.minimum) && Stored(p.maxAttempts, filler.maxAttempts, rec.maxAttempts)
    && Stored(p.nextId, filler.nextId, rec.nextId)
    && Stored(p.decayFunction, filler.decayFunction, rec.decayFunction)
    && Stored(p.connectionInfo, filler.connectionInfo, rec.connectionInfo)
    && Stored(p.attribution, filler.attribution, rec.attribution)
    && Stored(p.requirements, filler.requirements, rec.requirements)
  }

  /** A creation is up to date from the start, whatever the server puts into the
      fields the user left unset. */
  lemma {:induction false} PostConverges(p: Parameters, filler: Record)
    ensures var rec := Posted(PostParams(p), filler); IsUpToDate(p, rec, rec.requirements)
  {
  }

  /** Where the state is not managed, an update leaves it and Observe ignores it. */
  lemma {:induction false} UnmanagedStateStays(p: Parameters, before: Record, filler: Record, other: string,
      req: Option<Requirements>)
    requires p.state == ""
    ensures Patched(before, PatchParams(p, before.state), filler).state == before.state
    ensures IsUpToDate(p, before, req) <==> IsUpToDate(p, before.(state := other), req)
  {
  }

  /** The prerequisites are compared but not how they are anonymized: drift there is
      never detected. */
  lemma {:induction false} AnonymizeDriftUnseen(p: Parameters, before: Record, r: Requirements, other: Option<string>)
    ensures IsUpToDate(p, before, Some(r)) <==> IsUpToDate(p, before, Some(r.(anonymize := other)))
  {
  }
}

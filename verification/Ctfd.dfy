/** The CTFd data the reconciler reads and writes, and the conversation with the
    server: what it answers to each call, and which writes were sent to it. */
module Ctfd {
  import opened Wrappers

  datatype Requirements = Requirements(anonymize: Option<string>, prerequisites: seq<int>)

  /** The prerequisites of what may have no requirements at all. */
  function PrereqsOf(req: Option<Requirements>): seq<int> {
    match req
    case None => []
    case Some(r) => r.prerequisites
  }

  datatype Flag = Flag(id: int, content: string, typ: string, data: string)
  datatype Hint = Hint(id: int, content: Option<string>, title: Option<string>, cost: int,
                       requirements: Option<Requirements>)

  /** What the user declares. Prerequisites of a hint are indexes into the declared list. */
  datatype FlagSpec = FlagSpec(content: string, typ: string, data: string)
  datatype HintSpec = HintSpec(content: string, title: Option<string>, cost: int,
                               prerequisites: seq<int>, anonymize: Option<string>)

  /** The fields of a challenge itself, as the server stores them. */
  datatype Record = Record(
    name: string, category: string, description: string, typ: string, state: string, value: int,
    initial: Option<int>, decay: Option<int>, minimum: Option<int>, maxAttempts: Option<int>, nextId: Option<int>,
    decayFunction: Option<string>, connectionInfo: Option<string>, attribution: Option<string>,
    requirements: Option<Requirements>)

  datatype Challenge = Challenge(record: Record, flags: seq<Flag>, hints: seq<Hint>)

  /** A call is served; or fails before it took effect; or takes effect and fails
      on the way back, which the caller cannot tell from the former. */
  datatype Fault = Served | Refused | LostReply

  /** The server's side of one call: its fault, the id it would like to give to
      what is created, whether it keeps or clears a hint's unset optional fields,
      and what it puts into the fields of a challenge record that were not sent. */
  datatype Reply = Reply(fault: Fault, id: int, keepUnset: bool, filler: Record)

  datatype Write =
    | PostFlag
    | DeleteFlag(flag: int)
    | PostHint
    | PatchHint(hint: int)
    | DeleteHint(hint: int)
    | PostChallenge
    | PatchChallenge(challenge: int)
    | DeleteChallenge(challenge: int)

  /** One write in the log, and whether it took effect on the server. */
  datatype Entry = Entry(write: Write, applied: bool)

  const NO_RECORD := Record("", "", "", "", "", 0, None, None, None, None, None, None, None, None, None)
  const SERVED := Reply(Served, 0, false, NO_RECORD)
  const KEPT := Reply(Served, 0, true, NO_RECORD)
  const REFUSED := Reply(Refused, 0, false, NO_RECORD)

  /** The answers still to come, all calls being served once these are used up,
      and the writes sent so far. */
  datatype Line = Line(replies: seq<Reply>, log: seq<Entry>) {
    function Next(): Reply {
      if replies == [] then SERVED else replies[0]
    }

    /** The n-th answer to come. */
    function Answer(n: nat): Reply {
      if n < |replies| then replies[n] else SERVED
    }

    /** The first n answers serve their calls. */
    ghost predicate Serves(n: nat) {
      forall m :: 0 <= m < n ==> Answer(m).fault == Served
    }

    /** The first n answers serve their calls and keep what is not sent. */
    ghost predicate Keeps(n: nat) {
      forall m :: 0 <= m < n ==> Answer(m) == KEPT
    }

    /** What is left of the answers once n of them, all of which served their calls,
        have been given. */
    ghost predicate Leaves(n: nat, rest: Line) {
      Serves(n) && rest.replies == if n <= |replies| then replies[n..] else []
    }

    /** The same server, refusing everything after n answers. */
    function Cut(n: nat): Line {
      this.(replies := seq(n, m requires 0 <= m < n => Answer(m)) + [REFUSED])
    }

    function Read(): Line {
      this.(replies := if replies == [] then [] else replies[1..])
    }

    function Sent(w: Write): Line {
      Read().(log := log + [Entry(w, Next().fault != Refused)])
    }

    /** A write to something that is not there never takes effect. */
    function Rejected(w: Write): Line {
      Read().(log := log + [Entry(w, false)])
    }

    /** Reads n answers in a row, stopping at the first failure. */
    function ReadMany(n: nat): (Line, bool)
      decreases n
    {
      if n == 0 then (this, true)
      else if Next().fault != Served then (Read(), false)
      else Read().ReadMany(n - 1)
    }

    /** No call to come fails. */
    ghost predicate Quiet() {
      forall i :: 0 <= i < |replies| ==> replies[i].fault == Served
    }
  }

  lemma {:induction false} NextIsAnswer(line: Line, n: nat, rest: Line, w: Write)
    ensures line.Leaves(n, rest) ==> rest.Next() == line.Answer(n)
    ensures line.Leaves(n, rest) && rest.Next().fault == Served ==>
              line.Leaves(n + 1, rest.Read()) && line.Leaves(n + 1, rest.Sent(w))
  {
  }

  lemma {:induction false} ReadsLeave(line: Line, n: nat, rest: Line, k: nat)
    requires line.Leaves(n, rest)
    ensures rest.ReadMany(k).1 ==> line.Leaves(n + k, rest.ReadMany(k).0)
    ensures line.Serves(n + k) ==> rest.ReadMany(k).1
    decreases k
  {
    NextIsAnswer(line, n, rest, PostFlag);
    if k > 0 && rest.Next().fault == Served {
      ReadsLeave(line, n + 1, rest.Read(), k - 1);
    }
  }

  lemma {:induction false} KeepsOn(line: Line, n: nat, w: Write)
    requires line.Keeps(n) && n > 0
    ensures line.Next() == KEPT && line.Read().Keeps(n - 1) && line.Sent(w).Keeps(n - 1)
  {
    assert line.Answer(0) == KEPT;
    forall m | 0 <= m < n - 1 ensures line.Read().Answer(m) == KEPT == line.Sent(w).Answer(m) {
      assert line.Answer(m + 1) == KEPT;
    }
  }

  lemma {:induction false} ReadsKeep(line: Line, k: nat, n: nat)
    requires line.Keeps(n) && k <= n
    ensures line.ReadMany(k).1 && line.ReadMany(k).0.Keeps(n - k)
    decreases k
  {
    if k > 0 {
      KeepsOn(line, n, PostFlag);
      ReadsKeep(line.Read(), k - 1, n - 1);
    }
  }

  lemma {:induction false} CutStep(line: Line, n: nat, w: Write)
    ensures n == 0 ==> line.Cut(n).Next() == REFUSED
    ensures n > 0 ==> line.Cut(n).Next() == line.Next() && line.Cut(n).Read() == line.Read().Cut(n - 1)
    ensures n > 0 ==> line.Cut(n).Sent(w) == line.Sent(w).Cut(n - 1)
  {
    if n > 0 {
      assert line.Cut(n).Read().replies == line.Read().Cut(n - 1).replies;
    }
  }

  /** Cut reads fail, or they are the uncut ones. */
  lemma {:induction false} CutReads(line: Line, k: nat, n: nat)
    ensures var (cut, ok) := line.Cut(n).ReadMany(k);
            ok ==> k <= n && line.ReadMany(k).1 && cut == line.ReadMany(k).0.Cut(n - k)
    decreases k
  {
    CutStep(line, n, PostFlag);
    if k > 0 && n > 0 && line.Next().fault == Served {
      CutReads(line.Read(), k - 1, n - 1);
    }
  }

  lemma {:induction false} CutOfCut(line: Line, n: nat, m: nat)
    requires n <= m
    ensures line.Cut(m).Cut(n) == line.Cut(n)
  {
    assert line.Cut(m).Cut(n).replies == line.Cut(n).replies;
  }

  lemma {:induction false} ReadManyKeepsLog(line: Line, n: nat)
    ensures line.ReadMany(n).0.log == line.log
    ensures line.Quiet() ==> line.ReadMany(n).1 && line.ReadMany(n).0.Quiet()
    decreases n
  {
    if n > 0 && line.Next().fault == Served {
      ReadManyKeepsLog(line.Read(), n - 1);
    }
  }

  /** The first id from n on that is not in use. */
  function FreshFrom(used: set<int>, n: nat): (id: int)
    ensures id >= n && id !in used && (n !in used ==> id == n)
    decreases used
  {
    if n in used then FreshFrom(used - {n}, n + 1) else n
  }

  /** Any unused id can be had: it is the one wished for. */
  function FreshId(used: set<int>, wish: int): (id: int)
    ensures id >= 0 && id !in used && (wish >= 0 && wish !in used ==> id == wish)
  {
    FreshFrom(used, if wish < 0 then 0 else wish)
  }
}

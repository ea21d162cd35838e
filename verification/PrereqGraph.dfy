/** Hint prerequisites as a graph: the three-colour depth-first search that
    rejects cycles, and why that is the right thing to reject. */
module PrereqGraph {
  import opened Wrappers

  /** g[i] lists the indexes that hint i requires, duplicates and all. */
  type Graph = seq<seq<int>>

  ghost predicate InRange(g: Graph) {
    forall i, p :: 0 <= i < |g| && p in g[i] ==> 0 <= p < |g|
  }

  ghost predicate IsPath(g: Graph, path: seq<int>) {
    forall k :: 0 <= k < |path| - 1 ==> 0 <= path[k] < |g| && path[k + 1] in g[path[k]]
  }

  /** A closed walk of at least one edge that starts and ends at hint i. */
  ghost predicate IsCycleAt(g: Graph, path: seq<int>, i: int) {
    |path| >= 2 && path[0] == i && path[|path| - 1] == i && IsPath(g, path)
  }

  ghost predicate OnCycle(g: Graph, i: int) {
    exists path :: IsCycleAt(g, path, i)
  }

  /** The hints a player can have unlocked after some rounds, starting from none
      and unlocking in each round whatever has all its prerequisites unlocked. */
  ghost function Unlocked(g: Graph, rounds: nat): set<int> {
    if rounds == 0 then {}
    else set i | 0 <= i < |g| && forall p :: p in g[i] ==> p in Unlocked(g, rounds - 1)
  }

  /** Every hint can be unlocked, and within as many rounds as there are hints. */
  ghost predicate Unlockable(g: Graph) {
    forall i :: 0 <= i < |g| ==> i in Unlocked(g, |g|)
  }

  // ---------- what unlocking says about the graph ----------

  lemma {:induction false} OnlyKnownHintsUnlock(g: Graph, rounds: nat, i: int)
    requires i in Unlocked(g, rounds)
    ensures 0 <= i < |g| && forall p :: p in g[i] ==> 0 <= p < |g|
  {
    forall p | p in g[i] ensures 0 <= p < |g| {
      OnlyKnownHintsUnlock(g, rounds - 1, p);
    }
  }

  /** No hint on a cycle ever unlocks, however long the player goes on. */
  lemma {:induction false} CyclesNeverUnlock(g: Graph, path: seq<int>, i: int, rounds: nat)
    requires IsCycleAt(g, path, i)
    ensures i !in Unlocked(g, rounds)
    decreases rounds
  {
    if rounds > 0 {
      CyclesNeverUnlock(g, path[1..] + [path[1]], path[1], rounds - 1);
      assert path[1] in g[i];
    }
  }

  ghost predicate Distinct(s: seq<int>) {
    forall i, j :: 0 <= i < j < |s| ==> s[i] != s[j]
  }

  /** An order of hints in which each comes after everything it requires. */
  ghost predicate IsUnlockOrder(g: Graph, order: seq<int>) {
    && Distinct(order)
    && forall k :: 0 <= k < |order| ==>
         0 <= order[k] < |g| && forall p :: p in g[order[k]] ==> p in order[..k]
  }

  lemma {:induction false} OrderUnlocks(g: Graph, order: seq<int>, k: nat, rounds: nat)
    requires IsUnlockOrder(g, order) && k < |order| && k < rounds
    ensures order[k] in Unlocked(g, rounds)
  {
    hide Unlocked;
    forall p | p in g[order[k]] ensures p in Unlocked(g, rounds - 1) {
      var j :| 0 <= j < k && order[j] == p;
      OrderUnlocks(g, order, j, rounds - 1);
    }
    UnlocksNext(g, order[k], rounds);
  }

  lemma {:induction false} UnlocksNext(g: Graph, i: int, rounds: nat)
    requires rounds > 0 && 0 <= i < |g| && forall p :: p in g[i] ==> p in Unlocked(g, rounds - 1)
    ensures i in Unlocked(g, rounds)
  {
  }

  function UpTo(n: nat): (s: set<int>)
    ensures |s| == n && forall i :: i in s <==> 0 <= i < n
  {
    if n == 0 then {} else UpTo(n - 1) + {n - 1}
  }

  lemma {:induction false} DistinctSize(s: seq<int>)
    requires Distinct(s)
    ensures |set x | x in s| == |s|
  {
    if s != [] {
      var init, last := s[..|s| - 1], s[|s| - 1];
      DistinctSize(init);
      assert (set x | x in s) == (set x | x in init) + {last};
    }
  }

  lemma {:induction false} SubsetSize<T>(x: set<T>, y: set<T>)
    requires x <= y
    ensures |x| <= |y|
  {
    assert y == x + (y - x);
  }

  lemma {:induction false} DistinctBounded(s: seq<int>, n: nat)
    requires Distinct(s) && forall i :: 0 <= i < |s| ==> 0 <= s[i] < n
    ensures |s| <= n
  {
    DistinctSize(s);
    SubsetSize((set x | x in s), UpTo(n));
  }

  lemma {:induction false} CompleteOrderMeansUnlockable(g: Graph, order: seq<int>)
    requires IsUnlockOrder(g, order) && forall i :: 0 <= i < |g| ==> i in order
    ensures Unlockable(g)
  {
    DistinctBounded(order, |g|);
    forall i | 0 <= i < |g| ensures i in Unlocked(g, |g|) {
      assert i in order;
      var k :| 0 <= k < |order| && order[k] == i;
      OrderUnlocks(g, order, k, |g|);
    }
  }

  /** Unlockable graphs are exactly what the three checks look for: no index out
      of range, no self reference, no cycle. */
  lemma {:induction false} UnlockableMeansSound(g: Graph)
    requires Unlockable(g)
    ensures InRange(g) && forall i :: !OnCycle(g, i)
  {
    forall i, p | 0 <= i < |g| && p in g[i] ensures 0 <= p < |g| {
      OnlyKnownHintsUnlock(g, |g|, i);
    }
    forall i ensures !OnCycle(g, i) {
      if OnCycle(g, i) {
        var path :| IsCycleAt(g, path, i);
        CyclesNeverUnlock(g, path, i, |g|);
      }
    }
  }

  // ---------- the search ----------

  datatype Color = White | Gray | Black

  /** The colours tell where the search is: gray hints form the path being
      explored, black ones are finished and listed in an unlock order. */
  ghost predicate Coloring(g: Graph, color: seq<Color>, stack: seq<int>, order: seq<int>) {
    && |color| == |g|
    && (forall k :: 0 <= k < |g| ==> (color[k] == Gray <==> k in stack) && (color[k] == Black <==> k in order))
    && (forall k :: k in stack ==> 0 <= k < |g|)
    && IsPath(g, stack)
    && IsUnlockOrder(g, order)
  }

  ghost function Whites(color: seq<Color>): set<int> {
    set k | 0 <= k < |color| && color[k] == White
  }

  /** An edge back into the gray stack closes a real cycle through its top. */
  lemma {:induction false} GrayEdgeClosesCycle(g: Graph, stack: seq<int>, p: int)
    requires stack != [] && IsPath(g, stack) && 0 <= stack[|stack| - 1] < |g|
    requires p in stack && p in g[stack[|stack| - 1]]
    ensures OnCycle(g, stack[|stack| - 1])
  {
    var j :| 0 <= j < |stack| && stack[j] == p;
    var top := stack[|stack| - 1];
    var path := [top] + stack[j..];
    assert forall k :: 1 <= k < |path| ==> path[k] == stack[j + k - 1];
    assert IsCycleAt(g, path, top);
  }

  /** The search descends along edges. */
  ghost predicate Leads(g: Graph, stack: seq<int>, i: int) {
    stack == [] || (var top := stack[|stack| - 1]; 0 <= top < |g| && i in g[top])
  }

  lemma {:induction false} Enter(g: Graph, color: seq<Color>, stack: seq<int>, order: seq<int>, i: int)
    requires Coloring(g, color, stack, order) && Leads(g, stack, i)
    requires 0 <= i < |g| && color[i] == White
    ensures Coloring(g, color[i := Gray], stack + [i], order) && i !in stack && i in Whites(color)
    ensures Whites(color[i := Gray]) == Whites(color) - {i}
  {
  }

  lemma {:induction false} Finish(g: Graph, color: seq<Color>, stack: seq<int>, order: seq<int>, i: int)
    requires Coloring(g, color, stack + [i], order) && i !in stack
    requires 0 <= i < |g| && color[i] == Gray && forall p :: p in g[i] ==> p in order
    ensures Coloring(g, color[i := Black], stack, order + [i])
    ensures Whites(color[i := Black]) == Whites(color)
  {
    var longer := order + [i];
    forall k | 0 <= k < |longer| ensures forall p :: p in g[longer[k]] ==> p in longer[..k] {
      assert longer[..k] == order[..k];
      if k == |order| {
        assert order[..k] == order;
      }
    }
    var path := stack + [i];
    assert forall k :: 0 <= k < |stack| ==> path[k] == stack[k];
    forall k | k in stack ensures 0 <= k < |g| { assert k in path; }
  }

  method Visit(g: Graph, i: int, color: array<Color>, ghost stack: seq<int>, ghost order: seq<int>)
    returns (err: Option<int>, ghost order': seq<int>)
    requires InRange(g) && 0 <= i < |g|
    requires Coloring(g, color[..], stack, order)
    requires color[i] == White && Leads(g, stack, i)
    modifies color
    ensures err.Some? ==> OnCycle(g, err.value)
    ensures err.None? ==> Coloring(g, color[..], stack, order') && color[i] == Black
    ensures err.None? ==> order <= order' && Whites(color[..]) <= Whites(old(color[..]))
    decreases Whites(color[..])
  {
    ghost var before := Whites(color[..]);
    ghost var stack' := stack + [i];
    order' := order;
    Enter(g, color[..], stack, order, i);
    color[i] := Gray;
    assert color[..] == old(color[..])[i := Gray];
    for k := 0 to |g[i]|
      invariant Coloring(g, color[..], stack', order')
      invariant order <= order'
      invariant forall q :: 0 <= q < k ==> g[i][q] in order'
      invariant Whites(color[..]) <= before - {i}
    {
      var p := g[i][k];
      assert p in g[i];
      assert stack'[|stack'| - 1] == i;
      match color[p] {
        case Gray =>
          GrayEdgeClosesCycle(g, stack', p);
          return Some(i), order';
        case White =>
          ghost var previous := order';
          err, order' := Visit(g, p, color, stack', order');
          if err.Some? {
            return;
          }
          assert forall q :: q in previous ==> q in order';
        case Black =>
      }
    }
    assert i in stack' && color[..][i] == Gray;
    Finish(g, color[..], stack, order', i);
    ghost var grayed := color[..];
    color[i] := Black;
    assert color[..] == grayed[i := Black];
    order' := order' + [i];
    err := None;
  }

  /** The search is exact: it accepts precisely the graphs in which every hint can
      be unlocked, and what it reports lies on a cycle. */
  method DetectHintCycle(g: Graph) returns (err: Option<int>)
    requires InRange(g)
    ensures err.None? <==> forall i :: !OnCycle(g, i)
    ensures err.None? <==> Unlockable(g)
    ensures err.Some? ==> OnCycle(g, err.value)
  {
    var color := new Color[|g|](_ => White);
    ghost var order: seq<int> := [];
    err := None;
    for i := 0 to |g|
      invariant Coloring(g, color[..], [], order)
      invariant forall k :: 0 <= k < i ==> color[k] == Black
    {
      if color[i] == White {
        ghost var previous := order;
        err, order := Visit(g, i, color, [], order);
        if err.Some? {
          if Unlockable(g) {
            UnlockableMeansSound(g);
          }
          return;
        }
        assert forall k :: k in previous ==> k in order;
      }
    }
    err := None;
    assert forall k :: 0 <= k < |g| ==> color[..][k] == Black;
    CompleteOrderMeansUnlockable(g, order);
    UnlockableMeansSound(g);
  }

  datatype PrereqError = OutOfRange(hint: int, index: int) | SelfReference(hint: int) | Cycle(hint: int)

  ghost predicate Genuine(g: Graph, e: PrereqError) {
    match e
    case OutOfRange(i, p) => 0 <= i < |g| && p in g[i] && !(0 <= p < |g|)
    case SelfReference(i) => 0 <= i < |g| && i in g[i]
    case Cycle(i) => OnCycle(g, i)
  }

  /** Validation accepts a specification exactly when a player can unlock all of it. */
  method ValidateHintPrereqs(g: Graph) returns (err: Option<PrereqError>)
    ensures err.None? <==> Unlockable(g)
    ensures err.Some? ==> Genuine(g, err.value)
  {
    if Unlockable(g) {
      UnlockableMeansSound(g);
    }
    for i := 0 to |g|
      invariant forall j, p :: 0 <= j < i && p in g[j] ==> 0 <= p < |g|
    {
      for k := 0 to |g[i]|
        invariant forall q :: 0 <= q < k ==> 0 <= g[i][q] < |g|
      {
        var p := g[i][k];
        assert p in g[i];
        if p < 0 || p >= |g| {
          return Some(OutOfRange(i, p));
        }
        if p == i {
          assert IsCycleAt(g, [i, i], i) && OnCycle(g, i);
          return Some(SelfReference(i));
        }
      }
    }
    var cycle := DetectHintCycle(g);
    match cycle {
      case None => return None;
      case Some(i) => return Some(Cycle(i));
    }
  }
}

/** Every single write of a hint synchronisation is a step of progress, and so is
    every run of phases, whichever calls fail. */
module HintProgress {
  import opened Wrappers
  import opened Ctfd
  import opened Keys
  import opened Matching
  import opened HintSync

  // ---------- the calls, seen through keys and ids ----------

  lemma {:induction false} ItemsAppend(hints: seq<Hint>, h: Hint)
    ensures Items(hints + [h]) == Items(hints) + [Item(h.id, KeyOf(h))]
  {
  }

  lemma {:induction false} ItemsDrop(hints: seq<Hint>, id: int)
    ensures Items(DropHint(hints, id)) == WithoutId(Items(hints), id)
  {
    if hints != [] {
      var init, last := hints[..|hints| - 1], hints[|hints| - 1];
      ItemsDrop(init, id);
      assert Items(hints)[..|hints| - 1] == Items(init);
      if last.id != id {
        ItemsAppend(DropHint(init, id), last);
      }
    }
  }

  /** When exactly a patch leaves the matched hint's key as it was: unless the title is
      not sent, the server keeps it, and it is not empty. */
  lemma {:induction false} PatchKeepsKeyIff(h: Hint, d: HintSpec, want: seq<int>, keep: bool)
    requires KeyOf(h) == WantedKey(d)
    ensures KeyOf(Patched(h, d, want, keep)) == KeyOf(h) <==> !LeavesTitle(d, Deref(h.title), keep)
  {
    if keep && d.title.None? {
      assert |KeyOf(Patched(h, d, want, keep))| == |WantedKey(d)| + |Deref(h.title)|;
    }
  }

  lemma {:induction false} LookupFinds(hints: seq<Hint>, p: nat)
    requires p < |hints| && UniqueIds(Items(hints))
    ensures Lookup(hints, hints[p].id) == Some(hints[p])
  {
    var n := |hints| - 1;
    if p < n {
      assert Items(hints)[p].id != Items(hints)[n].id;
      assert Items(hints[..n]) == Items(hints)[..n];
      LookupFinds(hints[..n], p);
    }
  }

  /** A patch of a hint with its own value leaves ids and keys as they are, unless it
      leaves a title standing that the desired hint does not have. */
  lemma {:induction false} ItemsPatch(desired: seq<HintSpec>, hints: seq<Hint>, i: nat, want: seq<int>, keep: bool)
    requires i < |desired| && Sound(hints) && IdOf(desired, hints, i) >= 0
    requires !LeavesTitle(desired[i], TitleOf(Lookup(hints, IdOf(desired, hints, i))), keep)
    ensures Items(PatchWhere(hints, IdOf(desired, hints, i), desired[i], want, keep)) == Items(hints)
  {
    var d, id := desired[i], IdOf(desired, hints, i);
    BoundNonNegative(Wanted(desired), Items(hints), i);
    var p := BoundItem(Wanted(desired), Items(hints), i);
    LookupFinds(hints, p);
    PatchKeepsKeyIff(hints[p], d, want, keep);
    forall q | 0 <= q < |hints| && q != p ensures hints[q].id != id {
      assert Items(hints)[q].id != Items(hints)[p].id;
    }
  }

  lemma {:induction false} LookupPatch(hints: seq<Hint>, x: int, d: HintSpec, want: seq<int>, keep: bool, id: int)
    ensures Lookup(PatchWhere(hints, x, d, want, keep), id) ==
            if Lookup(hints, id).Some? && id == x then Some(Patched(Lookup(hints, id).value, d, want, keep))
            else Lookup(hints, id)
  {
    if hints != [] {
      var n := |hints| - 1;
      LookupPatch(hints[..n], x, d, want, keep, id);
      assert PatchWhere(hints, x, d, want, keep)[..n] == PatchWhere(hints[..n], x, d, want, keep);
    }
  }

  lemma {:induction false} LookupDrop(hints: seq<Hint>, x: int, id: int)
    requires id != x
    ensures Lookup(DropHint(hints, x), id) == Lookup(hints, id)
  {
    if hints != [] {
      LookupDrop(hints[..|hints| - 1], x, id);
    }
  }

  /** The listed hint of a desired index. */
  lemma {:induction false} PlaceOf(desired: seq<HintSpec>, hints: seq<Hint>, i: nat) returns (p: nat)
    requires i < |desired| && UniqueIds(Items(hints)) && IdOf(desired, hints, i) >= 0
    ensures p < |hints| && hints[p].id == IdOf(desired, hints, i) && KeyOf(hints[p]) == WantedKey(desired[i])
    ensures Lookup(hints, IdOf(desired, hints, i)) == Some(hints[p]) && HasId(hints, IdOf(desired, hints, i))
  {
    BoundNonNegative(Wanted(desired), Items(hints), i);
    p := BoundItem(Wanted(desired), Items(hints), i);
    LookupFinds(hints, p);
  }

  lemma {:induction false} IdsAre(desired: seq<HintSpec>, hints: seq<Hint>)
    ensures forall j :: 0 <= j < |desired| ==> Ids(desired, hints)[j] == IdOf(desired, hints, j)
  {
  }

  // ---------- the three writes ----------

  ghost predicate SameIds(desired: seq<HintSpec>, a: seq<Hint>, b: seq<Hint>) {
    forall i :: 0 <= i < |desired| ==> IdOf(desired, b, i) == IdOf(desired, a, i)
  }

  lemma {:induction false} PlacedCarries(desired: seq<HintSpec>, a: seq<Hint>, b: seq<Hint>, i: nat)
    requires i < |desired| && Resolvable(desired) && SameIds(desired, a, b)
    requires Lookup(b, IdOf(desired, a, i)) == Lookup(a, IdOf(desired, a, i))
    requires PlacedAt(desired, a, i)
    ensures PlacedAt(desired, b, i)
  {
    assert Ids(desired, a) == Ids(desired, b) by {
      forall j | 0 <= j < |desired| ensures Ids(desired, a)[j] == Ids(desired, b)[j] {
        assert IdOf(desired, b, j) == IdOf(desired, a, j);
      }
    }
  }

  function Fresh(d: HintSpec, id: int): Hint {
    Hint(id, Some(d.content), d.title, d.cost, None)
  }

  /** Creating the first desired hint that is missing. */
  lemma {:induction false} PostStep(desired: seq<HintSpec>, hints: seq<Hint>, i: nat, id: int)
    requires i < |desired| && Sound(hints) && IdOf(desired, hints, i) < 0
    requires forall j :: 0 <= j < i ==> IdOf(desired, hints, j) >= 0
    requires id >= 0 && !HasId(hints, id)
    ensures Progress(desired, hints, hints + [Fresh(desired[i], id)])
    ensures Unwanted(desired, hints + [Fresh(desired[i], id)]) == Unwanted(desired, hints)
    ensures forall j :: 0 <= j < |desired| ==>
              IdOf(desired, hints + [Fresh(desired[i], id)], j) == if j == i then id else IdOf(desired, hints, j)
  {
    var h, keys, items := Fresh(desired[i], id), Wanted(desired), Items(hints);
    var x := Item(id, keys[i]);
    ItemsAppend(hints, h);
    assert forall j :: 0 <= j < i ==> Bind(keys, items, j) == IdOf(desired, hints, j);
    FirstMissing(keys, items, i);
    forall j | 0 <= j < |desired|
      ensures IdOf(desired, hints + [h], j) == if j == i then id else IdOf(desired, hints, j)
    {
      PostBinds(keys, items, i, id, j);
    }
    RankBelowCount(keys, i);
    assert (items + [x])[..|items|] == items;
    forall k ensures Towards(Held(hints, k), Held(hints + [h], k), WantedCount(desired, k)) {
      QueueAppend(items, x, k);
    }
    PostKeepsSound(hints, h);
    PostKeepsTitles(desired, hints, i, id);
    forall y ensures HasId(hints, y) ==> HasId(hints + [h], y) {
      ListsAppend(items, x, y);
    }
    assert InPlace(desired, hints) ==> PlacedAt(desired, hints, i);
  }

  lemma {:induction false} PostKeepsSound(hints: seq<Hint>, h: Hint)
    requires Sound(hints) && h.id >= 0 && !HasId(hints, h.id)
    ensures Sound(hints + [h])
  {
    ItemsAppend(hints, h);
    assert forall p :: 0 <= p < |hints| ==> Items(hints)[p].id != h.id;
  }

  lemma {:induction false} PostKeepsTitles(desired: seq<HintSpec>, hints: seq<Hint>, i: nat, id: int)
    requires i < |desired| && Sound(hints) && !HasId(hints, id)
    requires forall j :: 0 <= j < |desired| ==>
               IdOf(desired, hints + [Fresh(desired[i], id)], j) == if j == i then id else IdOf(desired, hints, j)
    ensures TitlesAgree(desired, hints) ==> TitlesAgree(desired, hints + [Fresh(desired[i], id)])
  {
    var b := hints + [Fresh(desired[i], id)];
    assert b[..|hints|] == hints;
    forall j | 0 <= j < |desired| && MisTitled(desired, b, j) ensures MisTitled(desired, hints, j) {
      if j != i {
        var p := PlaceOf(desired, hints, j);
      }
    }
  }

  lemma {:induction false} SameItems(desired: seq<HintSpec>, a: seq<Hint>, b: seq<Hint>)
    requires Items(a) == Items(b)
    ensures Ids(desired, a) == Ids(desired, b)
    ensures Unwanted(desired, a) == Unwanted(desired, b)
    ensures forall i :: 0 <= i < |desired| ==> IdOf(desired, a, i) == IdOf(desired, b, i)
    ensures forall k :: Held(a, k) == Held(b, k)
    ensures forall id :: HasId(a, id) <==> HasId(b, id)
  {
  }

  lemma {:induction false} PatchPlaces(desired: seq<HintSpec>, hints: seq<Hint>, i: nat, keep: bool)
    requires i < |desired| && Sound(hints) && Resolvable(desired) && IdOf(desired, hints, i) >= 0
    requires !LeavesTitle(desired[i], TitleOf(Lookup(hints, IdOf(desired, hints, i))), keep)
    ensures var want := MapPrereqs(desired[i].prerequisites, Ids(desired, hints));
            var b := PatchWhere(hints, IdOf(desired, hints, i), desired[i], want, keep);
            Items(b) == Items(hints) && PlacedAt(desired, b, i) && !MisTitled(desired, b, i)
  {
    var want := MapPrereqs(desired[i].prerequisites, Ids(desired, hints));
    var b := PatchWhere(hints, IdOf(desired, hints, i), desired[i], want, keep);
    ItemsPatch(desired, hints, i, want, keep);
    SameItems(desired, hints, b);
    LookupPatch(hints, IdOf(desired, hints, i), desired[i], want, keep, IdOf(desired, hints, i));
    var p := PlaceOf(desired, hints, i);
  }

  /** Nothing is stored otherwise, except under one id. */
  ghost predicate OthersSame(a: seq<Hint>, b: seq<Hint>, id: int) {
    forall x :: x != id ==> Lookup(b, x) == Lookup(a, x)
  }

  /** What else is planned, is planned under other ids. */
  ghost predicate OwnId(desired: seq<HintSpec>, hints: seq<Hint>, i: nat)
    requires i < |desired|
  {
    forall j :: 0 <= j < |desired| && j != i ==> IdOf(desired, hints, j) != IdOf(desired, hints, i)
  }

  lemma {:induction false} BoundHasOwnId(desired: seq<HintSpec>, hints: seq<Hint>, i: nat)
    requires i < |desired| && Sound(hints) && IdOf(desired, hints, i) >= 0
    ensures OwnId(desired, hints, i)
  {
    hide Bind, Items, Wanted;
    forall j | 0 <= j < |desired| && j != i ensures IdOf(desired, hints, j) != IdOf(desired, hints, i) {
      BindingsDistinct(Wanted(desired), Items(hints), i, j);
    }
  }

  lemma {:induction false} PatchKeepsPlaces(desired: seq<HintSpec>, a: seq<Hint>, b: seq<Hint>, i: nat)
    requires i < |desired| && Resolvable(desired) && SameIds(desired, a, b) && OwnId(desired, a, i)
    requires OthersSame(a, b, IdOf(desired, a, i)) && PlacedAt(desired, b, i)
    ensures InPlace(desired, a) ==> InPlace(desired, b)
  {
    hide IdOf, Lookup, PlacedAt;
    if InPlace(desired, a) {
      forall j | 0 <= j < |desired| && j != i ensures PlacedAt(desired, b, j) {
        PlacedCarries(desired, a, b, j);
      }
    }
  }

  lemma {:induction false} PatchKeepsTitles(desired: seq<HintSpec>, a: seq<Hint>, b: seq<Hint>, i: nat)
    requires i < |desired| && SameIds(desired, a, b) && OwnId(desired, a, i)
    requires OthersSame(a, b, IdOf(desired, a, i)) && !MisTitled(desired, b, i)
    ensures TitlesAgree(desired, a) ==> TitlesAgree(desired, b)
  {
    hide IdOf, Lookup;
    forall j | 0 <= j < |desired| && MisTitled(desired, b, j) ensures MisTitled(desired, a, j) {
      assert IdOf(desired, b, j) == IdOf(desired, a, j);
    }
  }

  lemma {:induction false} PatchKeepsOthers(hints: seq<Hint>, id: int, d: HintSpec, want: seq<int>, keep: bool)
    ensures OthersSame(hints, PatchWhere(hints, id, d, want, keep), id)
  {
    hide Lookup, PatchWhere;
    forall x | x != id ensures Lookup(PatchWhere(hints, id, d, want, keep), x) == Lookup(hints, x) {
      LookupPatch(hints, id, d, want, keep, x);
    }
  }

  /** What changes no id and no key is progress if it keeps what is in place. */
  lemma {:induction false} SameItemsProgress(desired: seq<HintSpec>, a: seq<Hint>, b: seq<Hint>)
    requires Sound(a) && Items(a) == Items(b)
    requires InPlace(desired, a) ==> InPlace(desired, b)
    requires TitlesAgree(desired, a) ==> TitlesAgree(desired, b)
    ensures Progress(desired, a, b)
  {
    hide IdOf, Ids, Unwanted, UniqueIds, Lookup, PlacedAt, Items, Held, HasId, WantedCount, InPlace, TitlesAgree;
    SameItemsSound(a, b);
    SameItems(desired, a, b);
    assert forall k :: Held(a, k) == Held(b, k);
  }

  lemma {:induction false} SameItemsSound(a: seq<Hint>, b: seq<Hint>)
    requires Sound(a) && Items(a) == Items(b)
    ensures Sound(b)
  {
  }

  /** Giving an existing desired hint its prerequisites, all hints being there. */
  lemma {:induction false} PatchStep(desired: seq<HintSpec>, hints: seq<Hint>, i: nat, keep: bool)
    requires i < |desired| && Sound(hints) && Resolvable(desired)
    requires forall j :: 0 <= j < |desired| ==> IdOf(desired, hints, j) >= 0
    requires !LeavesTitle(desired[i], TitleOf(Lookup(hints, IdOf(desired, hints, i))), keep)
    ensures var want := MapPrereqs(desired[i].prerequisites, Ids(desired, hints));
            var b := PatchWhere(hints, IdOf(desired, hints, i), desired[i], want, keep);
            && Progress(desired, hints, b)
            && Items(b) == Items(hints)
            && PlacedAt(desired, b, i)
            && OthersSame(hints, b, IdOf(desired, hints, i))
  {
    hide PlacedAt, PatchWhere, LeavesTitle, Progress, Lookup, IdOf, InPlace, TitlesAgree, MisTitled, OthersSame, OwnId;
    var want := MapPrereqs(desired[i].prerequisites, Ids(desired, hints));
    var b := PatchWhere(hints, IdOf(desired, hints, i), desired[i], want, keep);
    PatchPlaces(desired, hints, i, keep);
    SameItems(desired, hints, b);
    PatchKeepsOthers(hints, IdOf(desired, hints, i), desired[i], want, keep);
    BoundHasOwnId(desired, hints, i);
    PatchKeepsPlaces(desired, hints, b, i);
    PatchKeepsTitles(desired, hints, b, i);
    SameItemsProgress(desired, hints, b);
  }

  lemma {:induction false} DropKeepsBindings(desired: seq<HintSpec>, hints: seq<Hint>, id: int, i: nat)
    requires i < |desired| && UniqueIds(Items(hints)) && id in Unwanted(desired, hints)
    ensures IdOf(desired, DropHint(hints, id), i) == IdOf(desired, hints, i) != id
    ensures Lookup(DropHint(hints, id), IdOf(desired, hints, i)) == Lookup(hints, IdOf(desired, hints, i))
  {
    ItemsDrop(hints, id);
    SurplusIsUnbound(Wanted(desired), Items(hints), id);
    BindWithout(Wanted(desired), Items(hints), id, i);
    LookupDrop(hints, id, IdOf(desired, hints, i));
  }

  lemma {:induction false} DropShrinksUnwanted(desired: seq<HintSpec>, hints: seq<Hint>, id: int, x: int)
    requires UniqueIds(Items(hints)) && id in Unwanted(desired, hints)
    ensures UniqueIds(Items(DropHint(hints, id)))
    ensures x in Unwanted(desired, DropHint(hints, id)) <==> x in Unwanted(desired, hints) && x != id
  {
    ItemsDrop(hints, id);
    UniqueWithout(Items(hints), id);
    SurplusWithout(Wanted(desired), Items(hints), id, x);
  }

  lemma {:induction false} DropCountsDown(desired: seq<HintSpec>, hints: seq<Hint>, id: int, k: string)
    requires UniqueIds(Items(hints)) && id in Unwanted(desired, hints)
    ensures Towards(Held(hints, k), Held(DropHint(hints, id), k), WantedCount(desired, k))
  {
    ItemsDrop(hints, id);
    var key := SurplusShrinks(Wanted(desired), Items(hints), id, k);
  }

  /** Deleting a hint that no desired hint uses, all of them being in place. */
  lemma {:induction false} DeleteStep(desired: seq<HintSpec>, hints: seq<Hint>, id: int)
    requires Sound(hints) && InPlace(desired, hints) && id in Unwanted(desired, hints)
    ensures Progress(desired, hints, DropHint(hints, id)) && InPlace(desired, DropHint(hints, id))
    ensures forall x :: x in Unwanted(desired, DropHint(hints, id)) <==> x in Unwanted(desired, hints) && x != id
  {
    var b := DropHint(hints, id);
    forall x ensures x in Unwanted(desired, b) <==> x in Unwanted(desired, hints) && x != id {
      DropShrinksUnwanted(desired, hints, id, x);
    }
    DropShrinksUnwanted(desired, hints, id, id);
    forall i | 0 <= i < |desired| ensures IdOf(desired, b, i) == IdOf(desired, hints, i) {
      DropKeepsBindings(desired, hints, id, i);
    }
    forall i | 0 <= i < |desired| && MisTitled(desired, b, i) ensures MisTitled(desired, hints, i) {
      DropKeepsBindings(desired, hints, id, i);
    }
    forall i | 0 <= i < |desired| ensures PlacedAt(desired, b, i) {
      DropKeepsBindings(desired, hints, id, i);
      PlacedCarries(desired, hints, b, i);
    }
    forall k ensures Towards(Held(hints, k), Held(b, k), WantedCount(desired, k)) {
      DropCountsDown(desired, hints, id, k);
    }
  }
}

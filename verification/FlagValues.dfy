/** What the flag verdict and the flag synchronisation mean for contents, types and
    data, beneath the keys. */
module FlagValues {
  import opened Ctfd
  import opened Keys
  import opened Matching
  import opened FlagSync

  /** A flag apart from its id: an empty type stands for the type static. */
  datatype FlagValue = FlagValue(content: string, typ: string, data: string)

  function ValueOf(content: string, typ: string, data: string): FlagValue {
    FlagValue(content, if typ == "" then "static" else typ, data)
  }

  function WantedValues(desired: seq<FlagSpec>): (values: seq<FlagValue>)
    ensures |values| == |desired|
  {
    seq(|desired|, i requires 0 <= i < |desired| =>
      ValueOf(desired[i].content, desired[i].typ, desired[i].data))
  }

  function HeldValues(flags: seq<Flag>): (values: seq<FlagValue>)
    ensures |values| == |flags|
  {
    seq(|flags|, i requires 0 <= i < |flags| => ValueOf(flags[i].content, flags[i].typ, flags[i].data))
  }

  predicate Plain(v: FlagValue) {
    v.typ != "" && '\0' !in v.typ && '\0' !in v.data
  }

  predicate AllPlain(values: seq<FlagValue>) {
    forall i :: 0 <= i < |values| ==> Plain(values[i])
  }

  function KeyOfValue(v: FlagValue): string {
    FlagKey(v.content, v.typ, v.data)
  }

  function KeysOfValues(values: seq<FlagValue>): (keys: seq<string>)
    ensures |keys| == |values|
  {
    seq(|values|, i requires 0 <= i < |values| => KeyOfValue(values[i]))
  }

  lemma {:induction false} KeyOfPlain(v: FlagValue, w: FlagValue)
    requires Plain(v) && Plain(w)
    ensures KeyOfValue(v) == KeyOfValue(w) <==> v == w
  {
    FlagKeyIdentifiesValue(v.content, v.typ, v.data, w.content, w.typ, w.data);
  }

  lemma {:induction false} CountsByKey(values: seq<FlagValue>, v: FlagValue)
    requires AllPlain(values) && Plain(v)
    ensures multiset(KeysOfValues(values))[KeyOfValue(v)] == multiset(values)[v]
  {
    hide Plain, KeyOfValue;
    if values != [] {
      var init, last := values[..|values| - 1], values[|values| - 1];
      CountsByKey(init, v);
      KeyOfPlain(last, v);
      assert values == init + [last];
      assert KeysOfValues(values) == KeysOfValues(init) + [KeyOfValue(last)];
    }
  }

  lemma {:induction false} KeySource(values: seq<FlagValue>, k: string)
    requires k in multiset(KeysOfValues(values))
    ensures exists i :: 0 <= i < |values| && KeyOfValue(values[i]) == k
  {
    assert k in KeysOfValues(values);
    var i :| 0 <= i < |values| && KeysOfValues(values)[i] == k;
  }

  lemma {:induction false} SameCountOfKey(a: seq<FlagValue>, b: seq<FlagValue>, k: string)
    requires AllPlain(a) && AllPlain(b) && multiset(a) == multiset(b)
    ensures multiset(KeysOfValues(a))[k] <= multiset(KeysOfValues(b))[k]
  {
    hide KeyOfValue, KeysOfValues;
    if k in multiset(KeysOfValues(a)) {
      KeySource(a, k);
      var i :| 0 <= i < |a| && KeyOfValue(a[i]) == k;
      CountsByKey(a, a[i]);
      CountsByKey(b, a[i]);
    }
  }

  lemma {:induction false} SameCountOfValue(a: seq<FlagValue>, b: seq<FlagValue>, v: FlagValue)
    requires AllPlain(a) && AllPlain(b) && multiset(KeysOfValues(a)) == multiset(KeysOfValues(b))
    ensures multiset(a)[v] <= multiset(b)[v]
  {
    hide KeyOfValue, KeysOfValues;
    if v in multiset(a) {
      assert v in a;
      CountsByKey(a, v);
      CountsByKey(b, v);
    }
  }


  /** Collections of flags have the same keys exactly if they have the same values. */
  lemma {:induction false} KeysTellValues(a: seq<FlagValue>, b: seq<FlagValue>)
    requires AllPlain(a) && AllPlain(b)
    ensures multiset(KeysOfValues(a)) == multiset(KeysOfValues(b)) <==> multiset(a) == multiset(b)
  {
    hide KeyOfValue, KeysOfValues, AllPlain;
    if multiset(a) == multiset(b) {
      forall k ensures multiset(KeysOfValues(a))[k] == multiset(KeysOfValues(b))[k] {
        SameCountOfKey(a, b, k);
        SameCountOfKey(b, a, k);
      }
    }
    if multiset(KeysOfValues(a)) == multiset(KeysOfValues(b)) {
      forall v ensures multiset(a)[v] == multiset(b)[v] {
        SameCountOfValue(a, b, v);
        SameCountOfValue(b, a, v);
      }
    }
  }

  lemma {:induction false} SameKeys(desired: seq<FlagSpec>, flags: seq<Flag>)
    ensures WantedFlags(desired) == KeysOfValues(WantedValues(desired))
    ensures KeysOf(FlagItems(flags)) == KeysOfValues(HeldValues(flags))
  {
  }

  ghost predicate NoNulFlags(desired: seq<FlagSpec>, flags: seq<Flag>) {
    && (forall i :: 0 <= i < |desired| ==> '\0' !in desired[i].typ && '\0' !in desired[i].data)
    && forall i :: 0 <= i < |flags| ==> '\0' !in flags[i].typ && '\0' !in flags[i].data
  }

  /** Flags are up to date exactly if the server holds each content with each type and
      data as often as it is wanted, an empty type standing for static. */
  lemma {:induction false} FlagVerdict(desired: seq<FlagSpec>, flags: seq<Flag>)
    requires NoNulFlags(desired, flags)
    ensures FlagsUpToDate(desired, flags) <==> multiset(WantedValues(desired)) == multiset(HeldValues(flags))
  {
    SameKeys(desired, flags);
    KeysTellValues(WantedValues(desired), HeldValues(flags));
  }

  // ---------- what a synchronisation stores ----------

  /** A flag is what some desired flag asks for, its type filled in. */
  ghost predicate MadeFor(desired: seq<FlagSpec>, f: Flag) {
    exists i :: 0 <= i < |desired| && f.content == desired[i].content && f.data == desired[i].data
                && f.typ == if desired[i].typ == "" then "static" else desired[i].typ
  }

  ghost predicate OnlyWanted(desired: seq<FlagSpec>, before: seq<Flag>, after: seq<Flag>) {
    forall f :: f in after ==> f in before || MadeFor(desired, f)
  }

  lemma {:induction false} PostsOnlyWanted(desired: seq<FlagSpec>, existing: seq<Flag>, i: nat, taken: set<int>,
      s: FlagState)
    requires i <= |desired|
    ensures OnlyWanted(desired, s.flags, PostMissing(desired, existing, i, taken, s).0.flags)
    ensures s.flags <= PostMissing(desired, existing, i, taken, s).0.flags
    decreases |desired| - i
  {
    hide Bind;
    if i < |desired| {
      if Bind(WantedFlags(desired), FlagItems(existing), i) >= 0 {
        PostsOnlyWanted(desired, existing, i + 1, taken, s);
      } else {
        var (s', ok) := PostFlagCall(s, taken, desired[i]);
        assert s'.flags == s.flags || MadeFor(desired, s'.flags[|s.flags|]);
        if ok {
          PostsOnlyWanted(desired, existing, i + 1, taken, s');
        }
      }
    }
  }

  lemma {:induction false} DropsOnly(flags: seq<Flag>, id: int, f: Flag)
    ensures f in DropFlag(flags, id) <==> f in flags && f.id != id
  {
    if flags != [] {
      var init, last := flags[..|flags| - 1], flags[|flags| - 1];
      DropsOnly(init, id, f);
      assert flags == init + [last];
    }
  }

  lemma {:induction false} DeletesOnly(deletes: seq<int>, s: FlagState, f: Flag)
    ensures f in DeleteFlags(deletes, s).0.flags ==> f in s.flags
    ensures f in s.flags && f.id !in deletes ==> f in DeleteFlags(deletes, s).0.flags
    decreases |deletes|
  {
    hide DropFlag;
    if deletes != [] {
      DropsOnly(s.flags, deletes[0], f);
      var (s', ok) := DeleteFlagCall(s, deletes[0]);
      if ok {
        DeletesOnly(deletes[1..], s', f);
      }
    }
  }

  /** Whatever calls fail, a synchronisation adds no flag but one with the content, type
      and data of a desired flag, and removes none but a surplus one. */
  lemma {:induction false} SyncFlagsStores(desired: seq<FlagSpec>, taken: set<int>, s: FlagState, deletes: seq<int>,
      f: Flag)
    ensures var after := SyncFlags(desired, taken, s, deletes).0.flags;
            && (f in after ==> f in s.flags || MadeFor(desired, f))
            && (f in s.flags && f.id !in deletes ==> f in after)
  {
    hide PostMissing, DeleteFlags, MadeFor;
    var s1 := s.(line := s.line.ReadMany(1).0);
    PostsOnlyWanted(desired, s.flags, 0, taken, s1);
    var s2 := PostMissing(desired, s.flags, 0, taken, s1).0;
    DeletesOnly(deletes, s2, f);
  }
}

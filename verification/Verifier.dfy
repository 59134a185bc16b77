/**
  Post-reshare verification and the public-key guard (pkg/orchestrator/verifier.go).
 */
module Verifier {
  import opened Types
  import opened Ordering
  import opened Publisher

  // ----- set equality by sorting and in-place compaction -----

  /** Drops every element equal to its predecessor. */
  function Compact(s: seq<string>): seq<string> {
    if s == [] then []
    else
      var n := |s| - 1;
      Compact(s[..n]) + if n > 0 && s[n] == s[n - 1] then [] else [s[n]]
  }

  lemma {:induction false} CompactSorted(s: seq<string>)
    requires Sorted(s, StringLe)
    ensures StrictlySorted(Compact(s), StringLe) && Elems(Compact(s)) == Elems(s)
    ensures s != [] ==> Compact(s) != [] && Compact(s)[|Compact(s)| - 1] == s[|s| - 1]
  {
    if s != [] {
      var n := |s| - 1;
      CompactSorted(s[..n]);
      assert Elems(s) == Elems(s[..n]) + {s[n]};
      if n > 0 && s[n] != s[n - 1] {
        assert s[..n][n - 1] == s[n - 1];
        StrictlyAbove(Compact(s[..n]), s[n - 1], s[n]);
      }
    }
  }

  /** A strictly sorted sequence grows by what is above its last element. */
  lemma StrictlyAbove(c: seq<string>, last: string, x: string)
    requires StrictlySorted(c, StringLe) && c != [] && c[|c| - 1] == last
    requires StringLe(last, x) && last != x
    ensures StrictlySorted(c + [x], StringLe)
  {
    forall i | 0 <= i < |c| ensures StringLe(c[i], x) && c[i] != x {
      StringLeTotal(c[i], c[i]);
      StringLeTransitive(c[i], last, x);
      if c[i] == x { StringLeAntisymmetric(last, x); }
    }
  }

  /** In-place compaction; the first n cells hold the result. */
  method DedupSorted(a: array<string>) returns (n: nat)
    modifies a
    ensures n <= a.Length && a[..n] == Compact(old(a[..]))
  {
    n := 0;
    var prev := "";
    ghost var s := a[..];
    for i := 0 to a.Length
      invariant n <= i && a[..n] == Compact(s[..i])
      invariant a[i..] == s[i..]
      invariant i > 0 ==> prev == s[i - 1]
    {
      assert s[..i + 1][..i] == s[..i];
      var v := a[i];
      assert v == a[i..][0] == s[i];
      ghost var rest := a[i + 1..];
      assert rest == a[i..][1..] == s[i + 1..];
      if i == 0 || v != prev {
        ghost var front := a[..n];
        a[n] := v;
        assert a[..n + 1] == front + [v] && a[i + 1..] == rest;
        n := n + 1;
        prev := v;
      }
    }
    assert s[..a.Length] == s;
  }

  /** A copy of the list, sorted and compacted in place. */
  method SortedCopy(a: seq<string>) returns (out: array<string>, n: nat)
    ensures fresh(out) && n <= out.Length
    ensures StrictlySorted(out[..n], StringLe) && Elems(out[..n]) == Elems(a)
  {
    var x := SortBy(a, StringLe);
    SortedElems(a);
    CompactSorted(x);
    out := new string[|x|](i requires 0 <= i < |x| => x[i]);
    assert out[..] == x;
    n := DedupSorted(out);
  }

  method EqualStringSet(a: seq<string>, b: seq<string>) returns (equal: bool)
    ensures equal <==> Elems(a) == Elems(b)
  {
    var s, m := SortedCopy(a);
    var t, n := SortedCopy(b);
    if Elems(a) == Elems(b) {
      StringOrder();
      StrictlySortedUnique(s[..m], t[..n], StringLe);
    }
    if m != n {
      return false;
    }
    for i := 0 to m
      invariant s[..i] == t[..i]
    {
      if s[i] != t[i] {
        assert s[..m][i] != t[..n][i];
        return false;
      }
    }
    return true;
  }

  lemma SortedElems(s: seq<string>)
    ensures Sorted(SortBy(s, StringLe), StringLe) && Elems(SortBy(s, StringLe)) == Elems(s)
  {
    StringOrder();
    SortByCorrect(s, StringLe);
    assert forall x :: x in SortBy(s, StringLe) <==> x in multiset(SortBy(s, StringLe));
  }

  // ----- what one verification means -----

  type Key = (string, KeyKind)

  /** Baseline public keys and frozen wallets in Consul. */
  datatype Store = Store(baseline: map<Key, PubKey>, frozen: set<string>)

  datatype KeyInfo = KeyInfo(committee: seq<string>, version: int)

  /** What the verification reads besides the store; `keyinfo` lacks families whose read failed. */
  datatype Expectation = Expectation(committee: seq<string>, keyinfo: map<KeyKind, KeyInfo>, oldVersions: map<KeyKind, int>)

  /** Consul failures during the call. */
  datatype Faults = Faults(read: set<KeyKind>, write: set<KeyKind>, freeze: bool)

  const NO_FAULTS := Faults({}, {}, false)

  /** The key reported for a family; nothing reported reads as empty. */
  function Pub(res: ReshareResult, kt: KeyType): PubKey {
    if kt in res.pubKeys then res.pubKeys[kt] else []
  }

  /** A usable observation of the family's public key. */
  predicate Observes(res: ReshareResult, faults: Faults, kt: KeyType) {
    kt in res.done && KeyKindFor(kt).Some? && Pub(res, kt) != [] && KeyKindFor(kt).value !in faults.read
  }

  predicate IsFirst(store: Store, w: string, res: ReshareResult, faults: Faults, kt: KeyType) {
    Observes(res, faults, kt) && (w, KeyKindFor(kt).value) !in store.baseline
  }

  predicate Differs(store: Store, w: string, res: ReshareResult, faults: Faults, kt: KeyType) {
    && Observes(res, faults, kt)
    && (w, KeyKindFor(kt).value) in store.baseline
    && store.baseline[(w, KeyKindFor(kt).value)] != Pub(res, kt)
  }

  ghost predicate KeyinfoOK(e: Expectation, kind: KeyKind) {
    && kind in e.keyinfo
    && Elems(e.keyinfo[kind].committee) == Elems(e.committee)
    && (kind in e.oldVersions ==> e.oldVersions[kind] < e.keyinfo[kind].version)
  }

  /** The families whose keyinfo shows the new committee under a higher version. */
  ghost function Good(e: Expectation): set<KeyKind> {
    set kind: KeyKind | KeyinfoOK(e, kind)
  }

  ghost predicate FamilyOK(store: Store, w: string, good: set<KeyKind>, res: ReshareResult, faults: Faults, kt: KeyType) {
    && Observes(res, faults, kt)
    && KeyKindFor(kt).value in good
    && !Differs(store, w, res, faults, kt)
  }

  /** The baseline entries a call adds for a set of families. */
  function NewBaselines(store: Store, w: string, res: ReshareResult, faults: Faults, kts: set<KeyType>): map<Key, PubKey> {
    map kt | kt in kts && IsFirst(store, w, res, faults, kt) && KeyKindFor(kt).value !in faults.write ::
      (w, KeyKindFor(kt).value) := Pub(res, kt)
  }

  ghost function Verified(store: Store, w: string, res: ReshareResult, faults: Faults): Store {
    Store(store.baseline + NewBaselines(store, w, res, faults, res.done),
          if !faults.freeze && exists kt :: kt in res.done && Differs(store, w, res, faults, kt)
          then store.frozen + {w} else store.frozen)
  }

  lemma NewBaselinesStep(store: Store, w: string, res: ReshareResult, faults: Faults, kts: set<KeyType>, kt: KeyType)
    requires kt in res.done && kt !in kts
    ensures NewBaselines(store, w, res, faults, kts + {kt}) ==
            if IsFirst(store, w, res, faults, kt) && KeyKindFor(kt).value !in faults.write
            then NewBaselines(store, w, res, faults, kts)[(w, KeyKindFor(kt).value) := Pub(res, kt)]
            else NewBaselines(store, w, res, faults, kts)
    ensures KeyKindFor(kt).Some? ==> (w, KeyKindFor(kt).value) !in NewBaselines(store, w, res, faults, kts)
  {
  }

  /** The store after visiting one family. */
  function FamilyStore(store: Store, w: string, res: ReshareResult, faults: Faults, kt: KeyType): Store {
    Store(if IsFirst(store, w, res, faults, kt) && KeyKindFor(kt).value !in faults.write
          then store.baseline[(w, KeyKindFor(kt).value) := Pub(res, kt)] else store.baseline,
          if Differs(store, w, res, faults, kt) && !faults.freeze then store.frozen + {w} else store.frozen)
  }

  /** Store and flags after visiting the families in `seen`. */
  ghost predicate Visited(first: Store, w: string, good: set<KeyKind>, res: ReshareResult, faults: Faults, seen: set<KeyType>,
                          store: Store, ok: bool, frozen: bool) {
    && store.baseline == first.baseline + NewBaselines(first, w, res, faults, seen)
    && (frozen <==> exists kt :: kt in seen && Differs(first, w, res, faults, kt))
    && store.frozen == (if frozen && !faults.freeze then first.frozen + {w} else first.frozen)
    && (ok <==> forall kt :: kt in seen ==> FamilyOK(first, w, good, res, faults, kt))
  }

  lemma VisitBaseline(first: Store, w: string, res: ReshareResult, faults: Faults, seen: set<KeyType>, store: Store, kt: KeyType)
    requires store.baseline == first.baseline + NewBaselines(first, w, res, faults, seen)
    requires kt in res.done && kt !in seen && seen <= res.done
    ensures FamilyStore(store, w, res, faults, kt).baseline == first.baseline + NewBaselines(first, w, res, faults, seen + {kt})
  {
    EntryUntouched(first, w, res, faults, seen, store, kt);
    NewBaselinesStep(first, w, res, faults, seen, kt);
  }

  lemma EntryUntouched(first: Store, w: string, res: ReshareResult, faults: Faults, seen: set<KeyType>, store: Store, kt: KeyType)
    requires store.baseline == first.baseline + NewBaselines(first, w, res, faults, seen)
    requires kt in res.done && kt !in seen
    ensures Differs(store, w, res, faults, kt) == Differs(first, w, res, faults, kt)
    ensures IsFirst(store, w, res, faults, kt) == IsFirst(first, w, res, faults, kt)
  {
    NewBaselinesStep(first, w, res, faults, seen, kt);
  }

  /** Families touch different baseline entries, so earlier visits do not influence later ones. */
  lemma Visit(first: Store, w: string, good: set<KeyKind>, res: ReshareResult, faults: Faults, seen: set<KeyType>,
              store: Store, ok: bool, frozen: bool, kt: KeyType)
    requires Visited(first, w, good, res, faults, seen, store, ok, frozen)
    requires kt in res.done && kt !in seen && seen <= res.done
    ensures Visited(first, w, good, res, faults, seen + {kt}, FamilyStore(store, w, res, faults, kt),
                    ok && FamilyOK(store, w, good, res, faults, kt), frozen || Differs(store, w, res, faults, kt))
  {
    VisitBaseline(first, w, res, faults, seen, store, kt);
    EntryUntouched(first, w, res, faults, seen, store, kt);
  }

  // ----- in terms of what was reported -----

  /** The family of a keyinfo namespace. */
  function TypeOf(kind: KeyKind): KeyType {
    if kind == Eddsa then Ed25519 else Secp256k1
  }

  /** The run completed the family and reported a key for it. */
  predicate Reported(res: ReshareResult, kind: KeyKind) {
    TypeOf(kind) in res.done && TypeOf(kind) in res.pubKeys && res.pubKeys[TypeOf(kind)] != []
  }

  lemma ObservesReported(res: ReshareResult, faults: Faults, kind: KeyKind)
    ensures Observes(res, faults, TypeOf(kind)) <==> Reported(res, kind) && kind !in faults.read
    ensures Reported(res, kind) ==> Pub(res, TypeOf(kind)) == res.pubKeys[TypeOf(kind)]
    ensures KeyKindFor(TypeOf(kind)) == Some(kind)
  {
  }

  lemma KnownFamily(kt: KeyType)
    ensures KeyKindFor(kt).Some? <==> kt == Ed25519 || kt == Secp256k1
    ensures KeyKindFor(kt).Some? ==> kt == TypeOf(KeyKindFor(kt).value)
  {
  }

  /** A key was reported and read against a recorded one that differs from it. */
  ghost predicate Clashes(store: Store, w: string, res: ReshareResult, faults: Faults, kind: KeyKind) {
    && Reported(res, kind) && kind !in faults.read
    && (w, kind) in store.baseline && store.baseline[(w, kind)] != res.pubKeys[TypeOf(kind)]
  }

  lemma ClashesIff(store: Store, w: string, res: ReshareResult, faults: Faults)
    ensures (exists kt :: kt in res.done && Differs(store, w, res, faults, kt)) <==>
            exists kind :: Clashes(store, w, res, faults, kind)
  {
    if kt :| kt in res.done && Differs(store, w, res, faults, kt) {
      KnownFamily(kt);
      ObservesReported(res, faults, KeyKindFor(kt).value);
      assert Clashes(store, w, res, faults, KeyKindFor(kt).value);
    }
    if kind :| Clashes(store, w, res, faults, kind) {
      ObservesReported(res, faults, kind);
      assert Differs(store, w, res, faults, TypeOf(kind));
    }
  }

  /** The keyinfo shows the new committee under a higher version, and the reported key is the recorded one or the first. */
  ghost predicate Sound(store: Store, w: string, e: Expectation, res: ReshareResult, faults: Faults, kind: KeyKind) {
    && kind in e.keyinfo
    && Elems(e.keyinfo[kind].committee) == Elems(e.committee)
    && (kind in e.oldVersions ==> e.oldVersions[kind] < e.keyinfo[kind].version)
    && Reported(res, kind) && kind !in faults.read
    && ((w, kind) in store.baseline ==> store.baseline[(w, kind)] == res.pubKeys[TypeOf(kind)])
  }

  lemma SoundIff(store: Store, w: string, e: Expectation, res: ReshareResult, faults: Faults, kt: KeyType)
    ensures FamilyOK(store, w, Good(e), res, faults, kt) <==>
            exists kind :: kt == TypeOf(kind) && Sound(store, w, e, res, faults, kind)
  {
    KnownFamily(kt);
    ObservesReported(res, faults, Eddsa);
    ObservesReported(res, faults, Ecdsa);
    if FamilyOK(store, w, Good(e), res, faults, kt) {
      assert Sound(store, w, e, res, faults, KeyKindFor(kt).value);
    }
    if kind :| kt == TypeOf(kind) && Sound(store, w, e, res, faults, kind) {
      assert KeyKindFor(kt) == Some(kind) && KeyinfoOK(e, kind);
    }
  }

  /**
    One call on the store, with any failures: a recorded key stays; a reported key of the
    wallet that could be read against none and written becomes the record; the wallet is
    frozen if some reported key clashed and the freeze could be written; nothing else changes.
   */
  lemma VerifiedMeaning(store: Store, w: string, res: ReshareResult, faults: Faults, v: string, kind: KeyKind)
    ensures var after := Verified(store, w, res, faults);
            && (if (v, kind) in store.baseline
                then (v, kind) in after.baseline && after.baseline[(v, kind)] == store.baseline[(v, kind)]
                else if v == w && Reported(res, kind) && kind !in faults.read && kind !in faults.write
                then (v, kind) in after.baseline && after.baseline[(v, kind)] == res.pubKeys[TypeOf(kind)]
                else (v, kind) !in after.baseline)
            && (v in after.frozen <==>
                v in store.frozen || (v == w && !faults.freeze && exists k :: Clashes(store, w, res, faults, k)))
  {
    ClashesIff(store, w, res, faults);
    ObservesReported(res, faults, kind);
    var added := NewBaselines(store, w, res, faults, res.done);
    if (v, kind) in added {
      var kt :| kt in res.done && IsFirst(store, w, res, faults, kt) && KeyKindFor(kt) == Some(kind);
      KnownFamily(kt);
    }
    if v == w && IsFirst(store, w, res, faults, TypeOf(kind)) && kind !in faults.write {
      assert TypeOf(kind) in res.done;
    }
  }

  lemma VerifyFlags(store: Store, w: string, e: Expectation, res: ReshareResult, faults: Faults)
    ensures (forall kt :: kt in res.done ==> FamilyOK(store, w, Good(e), res, faults, kt)) <==>
            forall kt :: kt in res.done ==> exists kind :: kt == TypeOf(kind) && Sound(store, w, e, res, faults, kind)
    ensures (exists kt :: kt in res.done && Differs(store, w, res, faults, kt)) <==>
            exists kind :: Clashes(store, w, res, faults, kind)
  {
    ClashesIff(store, w, res, faults);
    forall kt | kt in res.done
      ensures FamilyOK(store, w, Good(e), res, faults, kt) <==>
              exists kind :: kt == TypeOf(kind) && Sound(store, w, e, res, faults, kind)
    {
      SoundIff(store, w, e, res, faults, kt);
    }
  }

  class Verifier {
    var store: Store

    constructor ()
      ensures store == Store(map[], {})
    {
      store := Store(map[], {});
    }

    /** One family, in isolation. */
    method VerifyFamily(w: string, e: Expectation, res: ReshareResult, faults: Faults, kt: KeyType)
      returns (ok: bool, changed: bool)
      requires kt in res.done
      modifies this
      ensures store == FamilyStore(old(store), w, res, faults, kt)
      ensures ok <==> FamilyOK(old(store), w, Good(e), res, faults, kt)
      ensures changed <==> Differs(old(store), w, res, faults, kt)
    {
      ok, changed := true, false;
      if KeyKindFor(kt).None? {
        return false, false;
      }
      var kind := KeyKindFor(kt).value;
      if kind !in e.keyinfo {
        ok := false;
      } else {
        var same := EqualStringSet(e.keyinfo[kind].committee, e.committee);
        if !same {
          ok := false;
        }
        if kind in e.oldVersions && e.keyinfo[kind].version <= e.oldVersions[kind] {
          ok := false;
        }
      }
      var pub := Pub(res, kt);
      if |pub| == 0 || kind in faults.read {
        return false, false;
      }
      if (w, kind) !in store.baseline {
        if kind !in faults.write {
          store := store.(baseline := store.baseline[(w, kind) := pub]);
        }
        return;
      }
      if store.baseline[(w, kind)] != pub {
        ok, changed := false, true;
        if !faults.freeze {
          store := store.(frozen := store.frozen + {w});
        }
      }
    }

    /** Families are visited in an arbitrary order, as Go ranges over a map; the outcome does not depend on it. */
    method Verify(w: string, e: Expectation, res: ReshareResult, faults: Faults) returns (ok: bool, frozen: bool)
      modifies this
      ensures store == Verified(old(store), w, res, faults)
      ensures ok <==> forall kt :: kt in res.done ==> FamilyOK(old(store), w, Good(e), res, faults, kt)
      ensures frozen <==> exists kt :: kt in res.done && Differs(old(store), w, res, faults, kt)
      ensures ok <==> forall kt :: kt in res.done ==>
                exists kind :: kt == TypeOf(kind) && Sound(old(store), w, e, res, faults, kind)
      ensures frozen <==> exists kind :: Clashes(old(store), w, res, faults, kind)
    {
      VerifyFlags(store, w, e, res, faults);
      ok, frozen := true, false;
      ghost var first := store;
      var todo := res.done;
      while todo != {}
        invariant todo <= res.done
        invariant Visited(first, w, Good(e), res, faults, res.done - todo, store, ok, frozen)
      {
        var kt :| kt in todo;
        Visit(first, w, Good(e), res, faults, res.done - todo, store, ok, frozen, kt);
        assert res.done - todo + {kt} == res.done - (todo - {kt});
        var familyOK, changed := VerifyFamily(w, e, res, faults, kt);
        ok, frozen, todo := ok && familyOK, frozen || changed, todo - {kt};
      }
      assert res.done - todo == res.done;
    }

    method IsFrozen(w: string, readable: bool) returns (a: Answer)
      ensures a.Failed? <==> !readable
      ensures readable ==> (a.Yes? <==> w in store.frozen)
    {
      if !readable { return Failed; }
      return if w in store.frozen then Yes else No;
    }
  }

  // ----- histories -----

  datatype Call = Call(wallet: string, res: ReshareResult)

  ghost function StoreAfter(history: seq<Call>): Store {
    if history == [] then Store(map[], {})
    else
      var last := history[|history| - 1];
      Verified(StoreAfter(history[..|history| - 1]), last.wallet, last.res, NO_FAULTS)
  }

  /** The non-empty keys reported for a wallet and family, in order. */
  function Observed(history: seq<Call>, w: string, kind: KeyKind): seq<PubKey> {
    if history == [] then []
    else
      var last := history[|history| - 1];
      Observed(history[..|history| - 1], w, kind)
      + if last.wallet == w && Reported(last.res, kind) then [last.res.pubKeys[TypeOf(kind)]] else []
  }

  /** Some later key differs from the first. */
  ghost predicate Changes(keys: seq<PubKey>) {
    exists i :: 0 <= i < |keys| && keys[i] != keys[0]
  }

  lemma ChangesSnoc(keys: seq<PubKey>, key: PubKey)
    ensures Changes(keys + [key]) <==> Changes(keys) || (keys != [] && keys[0] != key)
  {
    var longer := keys + [key];
    if keys != [] && keys[0] != key {
      assert longer[|keys|] != longer[0];
    }
    if Changes(keys) {
      var i :| 0 <= i < |keys| && keys[i] != keys[0];
      assert longer[i] != longer[0];
    }
  }

  /** One fault-free call, entry by entry. */
  lemma VerifiedEntry(store: Store, w: string, res: ReshareResult, v: string, kind: KeyKind)
    ensures var next, kt := Verified(store, w, res, NO_FAULTS), TypeOf(kind);
            if (v, kind) in store.baseline then
              (v, kind) in next.baseline && next.baseline[(v, kind)] == store.baseline[(v, kind)]
            else if v == w && Reported(res, kind) then
              (v, kind) in next.baseline && next.baseline[(v, kind)] == res.pubKeys[kt]
            else (v, kind) !in next.baseline
  {
    VerifiedMeaning(store, w, res, NO_FAULTS, v, kind);
  }

  /** The baseline of a wallet and family is forever the first key observed for it. */
  lemma {:induction false} BaselineIsFirst(history: seq<Call>, w: string, kind: KeyKind)
    ensures var keys, baseline := Observed(history, w, kind), StoreAfter(history).baseline;
            ((w, kind) in baseline <==> keys != []) && (keys != [] ==> baseline[(w, kind)] == keys[0])
  {
    if history != [] {
      var last := history[|history| - 1];
      BaselineIsFirst(history[..|history| - 1], w, kind);
      VerifiedEntry(StoreAfter(history[..|history| - 1]), last.wallet, last.res, w, kind);
    }
  }

  lemma FrozenStep(store: Store, w: string, res: ReshareResult)
    ensures Verified(store, w, res, NO_FAULTS).frozen ==
            if exists kind :: Clashes(store, w, res, NO_FAULTS, kind) then store.frozen + {w} else store.frozen
  {
    ClashesIff(store, w, res, NO_FAULTS);
  }

  lemma ChangesStep(history: seq<Call>, call: Call, w: string, kind: KeyKind)
    ensures Changes(Observed(history + [call], w, kind)) <==>
            || Changes(Observed(history, w, kind))
            || (call.wallet == w && Clashes(StoreAfter(history), w, call.res, NO_FAULTS, kind))
  {
    ObservedSnoc(history, call, w, kind);
    BaselineIsFirst(history, w, kind);
    if call.wallet == w && Reported(call.res, kind) {
      ChangesSnoc(Observed(history, w, kind), call.res.pubKeys[TypeOf(kind)]);
    }
  }

  lemma ObservedSnoc(history: seq<Call>, call: Call, w: string, kind: KeyKind)
    ensures Observed(history + [call], w, kind) ==
            if call.wallet == w && Reported(call.res, kind)
            then Observed(history, w, kind) + [call.res.pubKeys[TypeOf(kind)]] else Observed(history, w, kind)
  {
    assert (history + [call])[..|history|] == history;
  }

  /** A wallet is frozen exactly when, for some family, a later key differed from the first. */
  lemma {:induction false} FrozenIff(history: seq<Call>, w: string)
    ensures w in StoreAfter(history).frozen <==> exists kind :: Changes(Observed(history, w, kind))
  {
    if history != [] {
      var before, last := history[..|history| - 1], history[|history| - 1];
      assert history == before + [last];
      FrozenIff(before, w);
      FrozenStep(StoreAfter(before), last.wallet, last.res);
      ChangesStep(before, last, w, Eddsa);
      ChangesStep(before, last, w, Ecdsa);
      TwoFamilies(before, w, StoreAfter(before), last.res);
      TwoFamilies(history, w, StoreAfter(before), last.res);
    }
  }

  lemma TwoFamilies(history: seq<Call>, w: string, store: Store, res: ReshareResult)
    ensures (exists kind :: Changes(Observed(history, w, kind))) <==>
            Changes(Observed(history, w, Eddsa)) || Changes(Observed(history, w, Ecdsa))
    ensures (exists kind :: Clashes(store, w, res, NO_FAULTS, kind)) <==>
            Clashes(store, w, res, NO_FAULTS, Eddsa) || Clashes(store, w, res, NO_FAULTS, Ecdsa)
  {
    if kind :| Changes(Observed(history, w, kind)) {
      assert kind == Eddsa || kind == Ecdsa;
    }
    if kind :| Clashes(store, w, res, NO_FAULTS, kind) {
      assert kind == Eddsa || kind == Ecdsa;
    }
  }

  /** Freezing is permanent. */
  lemma {:induction false} FreezePermanent(history: seq<Call>, later: seq<Call>)
    ensures StoreAfter(history).frozen <= StoreAfter(history + later).frozen
  {
    if later == [] {
      assert history + later == history;
    } else {
      FreezePermanent(history, later[..|later| - 1]);
      assert (history + later)[..|history + later| - 1] == history + later[..|later| - 1];
    }
  }
}

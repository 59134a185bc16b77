/**
  The peer registry, ECDH session and identity store as objects.  The program updates
  counters and maps incrementally; each operation is proved against RegistryModel.
 */
module Registry {
  import opened Ordering
  import opened Model = RegistryModel

  // ----- the program: identity store and ECDH session -----

  class IdentityStore {
    var pubs: map<string, PeerKey>
    var keys: set<string>

    constructor ()
      ensures pubs == map[] && keys == {}
    {
      pubs, keys := map[], {};
    }

    method UnregisterPeerPublicKey(p: string) returns (ok: bool)
      modifies this
      ensures ok == (p in old(pubs)) && pubs == old(pubs) - {p}
      ensures keys == if ok then old(keys) - {p} else old(keys)
    {
      if p !in pubs {
        assert pubs - {p} == pubs;
        return false;
      }
      pubs, keys := pubs - {p}, keys - {p};
      return true;
    }
  }

  class EcdhSession {
    const self: string
    const store: IdentityStore
    var mesh: set<string>
    var ceremony: set<string>

    constructor (self: string, store: IdentityStore)
      ensures this.self == self && this.store == store && mesh == {} && ceremony == {}
    {
      this.self, this.store, mesh, ceremony := self, store, {}, {};
    }

    method AddPeer(p: string)
      modifies `mesh, store`keys
      ensures mesh == if p == self then old(mesh) else old(mesh) + {p}
      ensures store.keys == if p != self && p in old(mesh) then old(store.keys) - {p} else old(store.keys)
    {
      if p == self { return; }
      if p in mesh {
        store.keys := store.keys - {p};
        return;
      }
      mesh := mesh + {p};
    }

    /** Scopes the expected peers to the committee and makes sure the mesh covers it. */
    method EnsureECDH(committee: seq<string>)
      modifies `mesh, `ceremony
      ensures mesh == old(mesh) + (Elems(committee) - {self})
      ensures ceremony == if Elems(committee) - {self} == {} then old(ceremony) else Elems(committee) - {self}
    {
      var scope: set<string> := {};
      ghost var before := mesh;
      for i := 0 to |committee|
        invariant scope == Elems(committee[..i]) - {self} && mesh == before + scope
        invariant ceremony == old(ceremony)
      {
        assert Elems(committee[..i + 1]) == Elems(committee[..i]) + {committee[i]};
        if committee[i] != self {
          scope := scope + {committee[i]};
          mesh := mesh + {committee[i]};
        }
      }
      assert committee[..|committee|] == committee;
      assert |scope| > 0 <==> scope != {};
      if |scope| > 0 {
        ceremony := scope;
      }
    }

    /** Counts the mesh peers with a key, whatever the ceremony scope. */
    method MeshCompletedKeyCount() returns (n: nat)
      ensures n == |mesh * store.keys|
    {
      n := 0;
      var todo := mesh;
      while todo != {}
        invariant todo <= mesh && n == |(mesh - todo) * store.keys|
      {
        var p :| p in todo;
        if p in store.keys {
          assert (mesh - (todo - {p})) * store.keys == (mesh - todo) * store.keys + {p};
          n := n + 1;
        } else {
          assert (mesh - (todo - {p})) * store.keys == (mesh - todo) * store.keys;
        }
        todo := todo - {p};
      }
      assert (mesh - todo) * store.keys == mesh * store.keys;
    }
  }

  // ----- the program: registry -----

  /** The readiness map after visiting the peers in `seen`. */
  function Visited(m: map<string, bool>, listed: map<string, string>, seen: set<string>): map<string, bool> {
    map p | p in m.Keys + seen * listed.Keys :: if p in seen then p in listed else m[p]
  }

  function VisitedEpochs(epochs: map<string, string>, listed: map<string, string>, seen: set<string>): map<string, string> {
    (epochs - seen) + (map p | p in listed && p in seen :: listed[p])
  }

  /** One peer of the poll: what the program assigns. */
  lemma VisitReady(m: map<string, bool>, listed: map<string, string>, seen: set<string>, p: string)
    requires p !in seen
    ensures var before, was := Visited(m, listed, seen), p in m && m[p];
            && (p in TrueKeys(before) <==> was)
            && Visited(m, listed, seen + {p}) ==
               (if p in listed && !was then before[p := true] else if p !in listed && was then before[p := false] else before)
  {
  }

  lemma TrueKeysUpdate(m: map<string, bool>, p: string, b: bool)
    ensures TrueKeys(m[p := b]) == if b then TrueKeys(m) + {p} else TrueKeys(m) - {p}
  {
  }

  method CountTrue(m: map<string, bool>) returns (count: nat)
    ensures count == |TrueKeys(m)|
  {
    count := 0;
    var todo := m.Keys;
    while todo != {}
      invariant todo <= m.Keys && count == |TrueKeys(m) - todo|
    {
      var p :| p in todo;
      if m[p] {
        assert TrueKeys(m) - (todo - {p}) == TrueKeys(m) - todo + {p};
        count := count + 1;
      } else {
        assert TrueKeys(m) - (todo - {p}) == TrueKeys(m) - todo;
      }
      todo := todo - {p};
    }
    assert TrueKeys(m) - todo == TrueKeys(m);
  }

  lemma AllTrueIff(peers: set<string>, m: map<string, bool>)
    requires m.Keys <= peers
    ensures |TrueKeys(m)| == |peers| <==> peers <= TrueKeys(m)
    ensures |peers| == 0 <==> peers == {}
  {
    assert peers * TrueKeys(m) == TrueKeys(m);
    CountsFull(peers, TrueKeys(m));
    SubsetSize(TrueKeys(m), peers);
  }

  /** The registry in the middle of a poll, before the flag is recomputed. */
  ghost function PolledPart(v: View, listed: map<string, string>, seen: set<string>): View {
    v.(readyMap := Visited(v.readyMap, listed, seen),
       readyCount := 1 + |TrueKeys(Visited(v.readyMap, listed, seen))|,
       epochs := VisitedEpochs(v.epochs, listed, seen),
       keys := v.keys - (TrueKeys(v.readyMap) * seen - listed.Keys))
  }

  /** What the program does for one peer. */
  function PolledOne(v: View, listed: map<string, string>, p: string): View {
    var was := p in v.readyMap && v.readyMap[p];
    v.(readyMap := if p in listed && !was then v.readyMap[p := true]
                   else if p !in listed && was then v.readyMap[p := false] else v.readyMap,
       readyCount := v.readyCount + (if p in listed && !was then 1 else if p !in listed && was then -1 else 0),
       keys := if p !in listed && was then v.keys - {p} else v.keys,
       epochs := if p in listed then v.epochs[p := listed[p]] else v.epochs - {p})
  }

  predicate RejoinsOne(v: View, listed: map<string, string>, p: string) {
    p in listed && (!(p in v.readyMap && v.readyMap[p]) || listed[p] != if p in v.epochs then v.epochs[p] else "")
  }

  lemma PolledStep(v: View, listed: map<string, string>, seen: set<string>, p: string)
    requires p !in seen
    ensures PolledOne(PolledPart(v, listed, seen), listed, p) == PolledPart(v, listed, seen + {p})
    ensures RejoinsOne(PolledPart(v, listed, seen), listed, p) == RejoinsOne(v, listed, p)
  {
    VisitReady(v.readyMap, listed, seen, p);
    var m := Visited(v.readyMap, listed, seen);
    TrueKeysUpdate(m, p, true);
    TrueKeysUpdate(m, p, false);
    VisitEpoch(v.epochs, listed, seen, p);
    VisitKeys(v.keys, TrueKeys(v.readyMap), listed.Keys, seen, p);
  }

  function PolledInOrder(v: View, listed: map<string, string>, order: seq<string>): View {
    if order == [] then v
    else PolledOne(PolledInOrder(v, listed, order[..|order| - 1]), listed, order[|order| - 1])
  }

  /** The peers for which a visit in this order starts a renegotiation. */
  function RejoinsInOrder(v: View, listed: map<string, string>, order: seq<string>): set<string> {
    if order == [] then {}
    else
      var before, p := order[..|order| - 1], order[|order| - 1];
      RejoinsInOrder(v, listed, before) + if RejoinsOne(PolledInOrder(v, listed, before), listed, p) then {p} else {}
  }

  /** Visiting distinct peers in any order gives the same state. */
  lemma {:induction false} OrderIrrelevant(v: View, listed: map<string, string>, order: seq<string>)
    requires NoRepeats(order) && v.readyCount == 1 + |TrueKeys(v.readyMap)|
    ensures PolledInOrder(v, listed, order) == PolledPart(v, listed, Elems(order))
  {
    if order == [] {
      VisitedNone(v, listed);
      assert Elems(order) == {};
    } else {
      var before, p := order[..|order| - 1], order[|order| - 1];
      OrderIrrelevant(v, listed, before);
      assert p !in Elems(before);
      PolledStep(v, listed, Elems(before), p);
      assert Elems(order) == Elems(before) + {p};
    }
  }

  lemma RejoinsNext(v: View, listed: map<string, string>, before: seq<string>, p: string)
    requires NoRepeats(before) && p !in before && v.readyCount == 1 + |TrueKeys(v.readyMap)|
    ensures RejoinsOne(PolledInOrder(v, listed, before), listed, p) == RejoinsOne(v, listed, p)
  {
    OrderIrrelevant(v, listed, before);
    assert p !in Elems(before);
    PolledStep(v, listed, Elems(before), p);
  }

  lemma {:induction false} RejoinsAll(v: View, listed: map<string, string>, order: seq<string>, q: string)
    requires NoRepeats(order) && v.readyCount == 1 + |TrueKeys(v.readyMap)|
    ensures q in RejoinsInOrder(v, listed, order) <==> q in order && RejoinsOne(v, listed, q)
  {
    if order != [] {
      var before, p := order[..|order| - 1], order[|order| - 1];
      RejoinsAll(v, listed, before, q);
      assert p !in before;
      RejoinsNext(v, listed, before, p);
      assert q in order <==> q in before || q == p;
    }
  }

  lemma VisitEpoch(epochs: map<string, string>, listed: map<string, string>, seen: set<string>, p: string)
    requires p !in seen
    ensures var a := VisitedEpochs(epochs, listed, seen);
            && VisitedEpochs(epochs, listed, seen + {p}) == (if p in listed then a[p := listed[p]] else a - {p})
            && (p in a <==> p in epochs) && (p in epochs ==> a[p] == epochs[p])
  {
  }

  lemma VisitKeys(keys: set<string>, wasReady: set<string>, listed: set<string>, seen: set<string>, p: string)
    ensures keys - (wasReady * (seen + {p}) - listed) ==
            if p !in listed && p in wasReady then keys - (wasReady * seen - listed) - {p} else keys - (wasReady * seen - listed)
  {
  }

  /** Having visited every peer, the incremental map is the recount. */
  lemma VisitedAll(m: map<string, bool>, listed: map<string, string>, peers: set<string>)
    requires m.Keys <= peers
    ensures Visited(m, listed, peers) == map p | p in m.Keys + peers * listed.Keys :: p in listed
    ensures TrueKeys(Visited(m, listed, peers)) == peers * listed.Keys
    ensures TrueKeys(m) * peers == TrueKeys(m)
  {
  }

  lemma VisitedNone(v: View, listed: map<string, string>)
    requires v.readyCount == 1 + |TrueKeys(v.readyMap)|
    ensures PolledPart(v, listed, {}) == v
  {
    assert Visited(v.readyMap, listed, {}) == v.readyMap;
    assert VisitedEpochs(v.epochs, listed, {}) == v.epochs;
  }

  lemma PolledAll(v: View, listed: map<string, string>)
    requires v.readyMap.Keys <= v.peers
    ensures Refresh(PolledPart(v, listed, v.peers)) == Poll(v, listed)
    ensures Visited(v.readyMap, listed, v.peers).Keys <= v.peers
  {
    VisitedAll(v.readyMap, listed, v.peers);
  }

  /** Visiting all peers in any order and recomputing the flag is the recount of the model. */
  lemma PollRefines(v: View, listed: map<string, string>, order: seq<string>)
    requires v.readyMap.Keys <= v.peers && v.readyCount == 1 + |TrueKeys(v.readyMap)|
    requires NoRepeats(order) && Elems(order) == v.peers
    ensures PolledInOrder(v, listed, order).readyMap.Keys <= v.peers
    ensures Refresh(PolledInOrder(v, listed, order)) == Poll(v, listed)
  {
    OrderIrrelevant(v, listed, order);
    PolledAll(v, listed);
  }

  lemma RejoinsRefine(v: View, listed: map<string, string>, order: seq<string>)
    requires NoRepeats(order) && Elems(order) == v.peers && v.readyCount == 1 + |TrueKeys(v.readyMap)|
    ensures RejoinsInOrder(v, listed, order) == Rejoining(v, listed)
  {
    forall q ensures q in RejoinsInOrder(v, listed, order) <==> q in Rejoining(v, listed) {
      RejoinsAll(v, listed, order, q);
      assert q in order <==> q in Elems(order);
    }
  }

  class DynamicRegistry {
    const self: string
    const threshold: int
    const accepts: Accepts
    const store: IdentityStore
    const session: EcdhSession
    var peers: set<string>
    var readyMap: map<string, bool>
    var readyCount: int
    var ready: bool
    var epochs: map<string, string>
    ghost var joined: set<string>

    ghost function State(): View
      reads this, session, store
    {
      View(self, peers, readyMap, readyCount, ready, epochs, joined, session.mesh, store.pubs, store.keys)
    }

    ghost predicate Valid()
      reads this, session, store
    {
      session.self == self && session.store == store && RegistryInv(State())
    }

    /** The session is set before the first AddPeer. */
    constructor (self: string, threshold: int, accepts: Accepts, store: IdentityStore, session: EcdhSession)
      requires session.self == self && session.store == store && self !in session.mesh
      ensures Valid() && this.self == self && this.threshold == threshold && this.accepts == accepts
      ensures this.store == store && this.session == session
      ensures State() == Fresh(self).(mesh := session.mesh, pubs := store.pubs, keys := store.keys)
    {
      this.self, this.threshold, this.accepts, this.store, this.session := self, threshold, accepts, store, session;
      peers, readyMap, readyCount, ready, epochs, joined := {}, map[], 1, false, map[], {};
    }

    ghost predicate Wired()
      reads this
    {
      session.self == self && session.store == store
    }

    method DoAddPeer(p: string, key: PeerKey) returns (ok: bool)
      requires Wired()
      modifies this, session, store
      ensures State() == Model.AddPeer(old(State()), accepts, p, key)
      ensures ok <==> p != self && (p in old(peers) || accepts(p, key))
    {
      if p == self {
        return false;
      }
      if p in peers {
        session.AddPeer(p);
        return true;
      }
      if !accepts(p, key) {
        return false;
      }
      ghost var before := store.pubs;
      if p !in store.pubs || store.pubs[p] != key {
        store.pubs := store.pubs[p := key];
      }
      assert store.pubs == before[p := key];
      peers, joined := peers + {p}, joined + {p};
      session.AddPeer(p);
      return true;
    }

    method AddPeer(p: string, key: PeerKey) returns (ok: bool)
      requires Valid()
      modifies this, session, store
      ensures Valid() && State() == Model.AddPeer(old(State()), accepts, p, key)
      ensures ok <==> p != self && (p in old(peers) || accepts(p, key))
    {
      JoinKeeps(State(), accepts, p, key);
      ok := DoAddPeer(p, key);
    }

    /** Recomputes the flag by counting. */
    method UpdateReadyState()
      requires readyMap.Keys <= peers
      modifies this`ready, this`joined
      ensures State() == Refresh(old(State()))
    {
      joined := {};
      var count := CountTrue(readyMap);
      AllTrueIff(peers, readyMap);
      if |peers| == 0 {
        ready := false;
        return;
      }
      ready := count == |peers|;
    }

    method DoRemovePeer(p: string) returns (ok: bool)
      requires Wired() && readyMap.Keys <= peers
      modifies this, store
      ensures State() == Model.RemovePeer(old(State()), p)
      ensures ok <==> p in old(peers)
    {
      if p !in peers {
        return false;
      }
      peers := peers - {p};
      if p in readyMap && readyMap[p] {
        readyCount := readyCount - 1;
      }
      readyMap := readyMap - {p};
      var _ := store.UnregisterPeerPublicKey(p);
      UpdateReadyState();
      return true;
    }

    method RemovePeer(p: string) returns (ok: bool)
      requires Valid()
      modifies this, store
      ensures Valid() && State() == Model.RemovePeer(old(State()), p)
      ensures ok <==> p in old(peers)
    {
      RemoveKeeps(State(), p);
      ok := DoRemovePeer(p);
    }

    /** One peer's turn in a poll; returns whether a renegotiation is started for it. */
    method PollPeer(p: string, listed: map<string, string>) returns (rejoin: bool)
      modifies this`readyMap, this`readyCount, this`epochs, store`keys
      ensures State() == PolledOne(old(State()), listed, p)
      ensures rejoin == RejoinsOne(old(State()), listed, p)
    {
      var was := p in readyMap && readyMap[p];
      var prevEpoch := if p in epochs then epochs[p] else "";
      rejoin := false;
      if p in listed && !was {
        readyMap := readyMap[p := true];
        readyCount := readyCount + 1;
        rejoin := true;
      } else if p in listed && was && listed[p] != prevEpoch {
        rejoin := true;
      } else if p !in listed && was {
        readyMap := readyMap[p := false];
        readyCount := readyCount - 1;
        store.keys := store.keys - {p};
      }
      if p in listed {
        epochs := epochs[p := listed[p]];
      } else {
        epochs := epochs - {p};
      }
    }

    /** Visits the peers in some order, as Go ranges over a map. */
    method VisitPeers(listed: map<string, string>) returns (rejoins: set<string>, order: seq<string>)
      requires Wired()
      modifies this`readyMap, this`readyCount, this`epochs, store`keys
      ensures NoRepeats(order) && Elems(order) == peers
      ensures State() == PolledInOrder(old(State()), listed, order)
      ensures rejoins == RejoinsInOrder(old(State()), listed, order)
    {
      ghost var v := State();
      rejoins, order := {}, [];
      var todo := peers;
      while todo != {}
        invariant todo <= peers && NoRepeats(order) && Elems(order) == peers - todo
        invariant State() == PolledInOrder(v, listed, order)
        invariant rejoins == RejoinsInOrder(v, listed, order)
      {
        var p :| p in todo;
        var rejoin := PollPeer(p, listed);
        if rejoin {
          rejoins := rejoins + {p};
        }
        assert (order + [p])[..|order|] == order;
        assert Elems(order + [p]) == Elems(order) + {p};
        order := order + [p];
        todo := todo - {p};
      }
    }

    /** The poll's incremental updates amount to a recount, whatever the order. */
    method CheckPeerReadiness(listed: map<string, string>) returns (rejoins: set<string>)
      requires Valid()
      modifies this, store`keys
      ensures Valid() && State() == Poll(old(State()), listed)
      ensures rejoins == Rejoining(old(State()), listed)
    {
      ghost var v := State();
      var order;
      rejoins, order := VisitPeers(listed);
      PollRefines(v, listed, order);
      RejoinsRefine(v, listed, order);
      PollKeeps(v, listed);
      UpdateReadyState();
    }

    method HandleECDHRejoin(p: string)
      requires Wired()
      modifies session, store
      ensures State() == Rejoin(old(State()), p)
    {
      store.keys := store.keys - {p};
      session.AddPeer(p);
    }

    /** The gate in front of keygen. */
    method ArePeersReady() returns (open: bool)
      requires Wired()
      ensures open == GateOpen(State(), threshold)
    {
      if |peers| == 0 { return false; }
      if |peers| + 1 < threshold + 1 { return false; }
      if !ready { return false; }
      if readyCount < threshold + 1 { return false; }
      if |session.mesh| == 0 { return false; }
      var completed := session.MeshCompletedKeyCount();
      return completed >= |session.mesh|;
    }

    /** The committee-local gate: a quorum with this node, every other member ready and keyed. */
    method AreCeremonyReady(committee: seq<string>) returns (open: bool)
      requires Wired()
      ensures open <==> |committee| >= threshold + 1 && self in committee &&
                        forall id :: id in committee && id != self ==> id in TrueKeys(readyMap) && id in store.keys
    {
      if |committee| < threshold + 1 { return false; }
      var selfIncluded := false;
      for i := 0 to |committee|
        invariant selfIncluded <==> self in committee[..i]
        invariant forall j :: 0 <= j < i && committee[j] != self ==>
                    committee[j] in TrueKeys(readyMap) && committee[j] in store.keys
      {
        var id := committee[i];
        assert id in committee;
        if id == self {
          selfIncluded := true;
        } else {
          if id !in readyMap || !readyMap[id] { return false; }
          if id !in store.keys { return false; }
        }
      }
      return selfIncluded;
    }

    /** The ready peers in some order, and this node. */
    method GetReadyPeersIncludeSelf() returns (ids: seq<string>)
      ensures Elems(ids) == TrueKeys(readyMap) + {self}
    {
      ids := [];
      var todo := readyMap.Keys;
      while todo != {}
        invariant todo <= readyMap.Keys && Elems(ids) == TrueKeys(readyMap) - todo
      {
        var p :| p in todo;
        assert Elems(ids + [p]) == Elems(ids) + {p};
        if readyMap[p] {
          ids := ids + [p];
        }
        todo := todo - {p};
      }
      assert Elems(ids + [self]) == Elems(ids) + {self};
      ids := ids + [self];
    }
  }
}

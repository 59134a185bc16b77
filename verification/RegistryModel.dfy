/**
  The state of the peer registry and its ECDH mesh (pkg/mpc/dynamic_registry.go,
  pkg/mpc/dynamic_ecdh_session.go and the peer maps of pkg/identity/dynamic_store.go)
  with its operations as functions, and what every sequence of them keeps.
 */
module RegistryModel {
  import opened Ordering

  type PeerKey = seq<bv8>

  /** The membership verifier, fixed for a node's lifetime. */
  type Accepts = (string, PeerKey) -> bool

  /**
    `joined` is a history variable: the peers added since `ready` was last computed.
   */
  datatype View = View(
    self: string,
    peers: set<string>,
    readyMap: map<string, bool>,
    readyCount: int,
    ready: bool,
    epochs: map<string, string>,
    joined: set<string>,
    mesh: set<string>,
    pubs: map<string, PeerKey>,
    keys: set<string>)

  function TrueKeys(m: map<string, bool>): set<string> {
    set p | p in m && m[p]
  }

  function ReadyPeers(v: View): set<string> {
    TrueKeys(v.readyMap)
  }

  // ----- operations -----

  /** AddPeer of the ECDH session: a new peer enters the mesh, a known one loses its stale key. */
  function Exchange(v: View, p: string): View {
    if p == v.self then v
    else if p in v.mesh then v.(keys := v.keys - {p})
    else v.(mesh := v.mesh + {p})
  }

  function AddPeer(v: View, accepts: Accepts, p: string, key: PeerKey): View {
    if p == v.self then v
    else if p in v.peers then Exchange(v, p)
    else if !accepts(p, key) then v
    else Exchange(v, p).(pubs := v.pubs[p := key], peers := v.peers + {p}, joined := v.joined + {p})
  }

  /** updateReadyState: every known peer is ready, and there is one. */
  function Refresh(v: View): View {
    v.(ready := v.peers != {} && v.peers <= ReadyPeers(v), joined := {})
  }

  function RemovePeer(v: View, p: string): View {
    if p !in v.peers then v
    else
      Refresh(v.(peers := v.peers - {p}, readyMap := v.readyMap - {p},
                 readyCount := v.readyCount - (if p in ReadyPeers(v) then 1 else 0),
                 pubs := v.pubs - {p}, keys := if p in v.pubs then v.keys - {p} else v.keys))
  }

  /** checkPeerReadiness, recounted from scratch; `listed` maps ready peers to their epoch. */
  function Poll(v: View, listed: map<string, string>): View {
    Refresh(v.(readyMap := map p | p in v.readyMap.Keys + v.peers * listed.Keys :: p in listed,
               readyCount := 1 + |v.peers * listed.Keys|,
               epochs := (v.epochs - v.peers) + (map p | p in listed && p in v.peers :: listed[p]),
               keys := v.keys - (ReadyPeers(v) - listed.Keys)))
  }

  /** Peers for which a poll starts a renegotiation: newly ready, or restarted with a new epoch. */
  function Rejoining(v: View, listed: map<string, string>): set<string> {
    set p | p in listed && p in v.peers &&
            (p !in ReadyPeers(v) || listed[p] != (if p in v.epochs then v.epochs[p] else ""))
  }

  /** handleECDHRejoin, which runs later on its own. */
  function Rejoin(v: View, p: string): View {
    Exchange(v.(keys := v.keys - {p}), p)
  }

  function EnsureECDH(v: View, committee: set<string>): View {
    v.(mesh := v.mesh + (committee - {v.self}))
  }

  datatype Step =
    | Join(peer: string, key: PeerKey)
    | Leave(peer: string)
    | PollReady(listed: map<string, string>)
    | RejoinPeer(peer: string)
    | KeyArrives(peer: string)
    | Ceremony(committee: set<string>)

  function Next(v: View, accepts: Accepts, st: Step): View {
    match st
    case Join(p, key) => AddPeer(v, accepts, p, key)
    case Leave(p) => RemovePeer(v, p)
    case PollReady(listed) => Poll(v, listed)
    case RejoinPeer(p) => Rejoin(v, p)
    case KeyArrives(p) => v.(keys := v.keys + {p})
    case Ceremony(committee) => EnsureECDH(v, committee)
  }

  function After(v: View, accepts: Accepts, steps: seq<Step>): View {
    if steps == [] then v else Next(After(v, accepts, steps[..|steps| - 1]), accepts, steps[|steps| - 1])
  }

  // ----- what each operation means -----

  /**
    A join: this node and unknown peers that are not accepted change nothing; a known peer
    only has its key exchange started again; a new one is registered under its key and
    enters the mesh.  A peer that was in the mesh loses its symmetric key.
   */
  lemma JoinMeaning(v: View, accepts: Accepts, p: string, key: PeerKey)
    ensures var n := AddPeer(v, accepts, p, key);
            if p == v.self || (p !in v.peers && !accepts(p, key)) then n == v
            else
              && n.peers == v.peers + {p} && n.mesh == v.mesh + {p}
              && n.pubs == (if p in v.peers then v.pubs else v.pubs[p := key])
              && n.keys == (if p in v.mesh then v.keys - {p} else v.keys)
              && n.readyMap == v.readyMap && n.readyCount == v.readyCount && n.ready == v.ready && n.epochs == v.epochs
              && n.self == v.self
  {
  }

  /** A leave: the peer and its keys are gone, the mesh stays ... */
  lemma LeaveMeaning(v: View, p: string)
    ensures p !in v.peers ==> RemovePeer(v, p) == v
    ensures p in v.peers ==>
              && RemovePeer(v, p).peers == v.peers - {p} && RemovePeer(v, p).pubs == v.pubs - {p}
              && RemovePeer(v, p).keys == (if p in v.pubs then v.keys - {p} else v.keys)
              && RemovePeer(v, p).mesh == v.mesh && RemovePeer(v, p).epochs == v.epochs && RemovePeer(v, p).self == v.self
  {
  }

  /** ... and readiness, counter and flag follow. */
  lemma LeaveReadiness(v: View, p: string)
    requires RegistryInv(v) && p in v.peers
    ensures ReadyPeers(RemovePeer(v, p)) == ReadyPeers(v) - {p}
    ensures RemovePeer(v, p).readyCount == 1 + |ReadyPeers(v) - {p}|
    ensures RemovePeer(v, p).ready <==> v.peers - {p} != {} && v.peers - {p} <= ReadyPeers(v)
  {
    var n := RemovePeer(v, p);
    assert ReadyPeers(n) == ReadyPeers(v) - {p};
    assert CountInv(n.peers, n.readyMap, n.readyCount) by { RemoveKeeps(v, p); }
  }

  /**
    A poll: a registered peer is ready exactly if it is listed, counter and flag follow; a
    peer that was ready and is not listed loses its symmetric key; epochs are those listed.
   */
  lemma PollMeaning(v: View, listed: map<string, string>)
    requires RegistryInv(v)
    ensures var n := Poll(v, listed);
            && ReadyPeers(n) == v.peers * listed.Keys && n.readyCount == 1 + |v.peers * listed.Keys|
            && (n.ready <==> v.peers != {} && v.peers <= listed.Keys)
            && n.peers == v.peers && n.mesh == v.mesh && n.pubs == v.pubs && n.self == v.self
            && (forall p :: p in n.keys <==> p in v.keys && !(p in ReadyPeers(v) && p !in listed))
            && (forall p :: p in v.peers ==> (p in n.epochs <==> p in listed) && (p in listed ==> n.epochs[p] == listed[p]))
  {
    PollKeeps(v, listed);
  }

  /** A poll starts a renegotiation exactly for listed peers that were not ready, or whose epoch is new. */
  lemma RejoiningMeaning(v: View, listed: map<string, string>, p: string)
    ensures p in Rejoining(v, listed) <==>
            && p in v.peers && p in listed
            && (|| !(p in v.readyMap && v.readyMap[p])
                || (p in v.epochs && v.epochs[p] != listed[p])
                || (p !in v.epochs && listed[p] != ""))
  {
  }

  /** A renegotiation drops the peer's symmetric key and makes sure that it is in the mesh. */
  lemma RejoinMeaning(v: View, p: string)
    ensures Rejoin(v, p) == v.(keys := v.keys - {p}, mesh := if p == v.self then v.mesh else v.mesh + {p})
  {
    assert v.keys - {p} - {p} == v.keys - {p};
    assert p in v.mesh ==> v.mesh + {p} == v.mesh;
  }

  /** A ceremony brings its committee, without this node, into the mesh. */
  lemma CeremonyMeaning(v: View, committee: set<string>, p: string)
    ensures p in EnsureECDH(v, committee).mesh <==> p in v.mesh || (p in committee && p != v.self)
    ensures EnsureECDH(v, committee) == v.(mesh := EnsureECDH(v, committee).mesh)
  {
  }

  // ----- what every operation keeps -----

  function Fresh(self: string): View {
    View(self, {}, map[], 1, false, map[], {}, {}, map[], {})
  }

  /** Registered peers are in the mesh; this node is in neither. */
  ghost predicate MeshInv(self: string, peers: set<string>, mesh: set<string>) {
    self !in mesh && peers <= mesh
  }

  /** The counter is this node plus the ready peers, all of them registered. */
  ghost predicate CountInv(peers: set<string>, readyMap: map<string, bool>, readyCount: int) {
    readyMap.Keys <= peers && readyCount == 1 + |TrueKeys(readyMap)|
  }

  /** The flag speaks about the peers known at the last refresh. */
  ghost predicate FlagInv(peers: set<string>, joined: set<string>, readyMap: map<string, bool>, ready: bool) {
    && joined <= peers && joined !! TrueKeys(readyMap)
    && (ready <==> peers - joined != {} && peers - joined <= TrueKeys(readyMap))
  }

  ghost predicate RegistryInv(v: View) {
    && MeshInv(v.self, v.peers, v.mesh)
    && CountInv(v.peers, v.readyMap, v.readyCount)
    && FlagInv(v.peers, v.joined, v.readyMap, v.ready)
  }

  lemma PollKeeps(v: View, listed: map<string, string>)
    requires RegistryInv(v)
    ensures RegistryInv(Poll(v, listed)) && ReadyPeers(Poll(v, listed)) == v.peers * listed.Keys
    ensures Poll(v, listed).self == v.self
  {
    var n := Poll(v, listed);
    assert ReadyPeers(n) == v.peers * listed.Keys;
  }

  lemma RemoveKeeps(v: View, p: string)
    requires RegistryInv(v)
    ensures RegistryInv(RemovePeer(v, p)) && RemovePeer(v, p).self == v.self
  {
    var n := RemovePeer(v, p);
    if p in v.peers {
      assert ReadyPeers(n) == ReadyPeers(v) - {p};
    }
  }

  lemma FlagJoin(peers: set<string>, joined: set<string>, readyMap: map<string, bool>, ready: bool, p: string)
    requires FlagInv(peers, joined, readyMap, ready) && readyMap.Keys <= peers && p !in peers
    ensures FlagInv(peers + {p}, joined + {p}, readyMap, ready)
  {
    assert peers + {p} - (joined + {p}) == peers - joined;
  }

  lemma ExchangeKeeps(v: View, p: string)
    requires RegistryInv(v)
    ensures RegistryInv(Exchange(v, p)) && (p != v.self ==> p in Exchange(v, p).mesh)
  {
  }

  lemma JoinNew(v: View, accepts: Accepts, p: string, key: PeerKey)
    requires RegistryInv(v) && p != v.self && p !in v.peers && accepts(p, key)
    ensures RegistryInv(AddPeer(v, accepts, p, key)) && AddPeer(v, accepts, p, key).self == v.self
  {
    var e, n := Exchange(v, p), AddPeer(v, accepts, p, key);
    assert n == e.(pubs := v.pubs[p := key], peers := v.peers + {p}, joined := v.joined + {p});
    assert p in e.mesh && v.mesh <= e.mesh && v.self !in e.mesh;
    FlagJoin(v.peers, v.joined, v.readyMap, v.ready, p);
  }

  lemma JoinKeeps(v: View, accepts: Accepts, p: string, key: PeerKey)
    requires RegistryInv(v)
    ensures RegistryInv(AddPeer(v, accepts, p, key)) && AddPeer(v, accepts, p, key).self == v.self
  {
    if p != v.self && p in v.peers {
      ExchangeKeeps(v, p);
    } else if p != v.self && accepts(p, key) {
      JoinNew(v, accepts, p, key);
    } else {
      assert AddPeer(v, accepts, p, key) == v;
    }
  }

  /** Steps that leave registration and readiness alone. */
  lemma ExchangeStep(v: View, accepts: Accepts, st: Step)
    requires RegistryInv(v) && (st.RejoinPeer? || st.KeyArrives? || st.Ceremony?)
    ensures RegistryInv(Next(v, accepts, st)) && Next(v, accepts, st).self == v.self
  {
    if st.RejoinPeer? {
      ExchangeKeeps(v.(keys := v.keys - {st.peer}), st.peer);
    }
  }

  lemma StepKeeps(v: View, accepts: Accepts, st: Step)
    requires RegistryInv(v)
    ensures RegistryInv(Next(v, accepts, st)) && Next(v, accepts, st).self == v.self
  {
    match st
    case Join(p, key) => JoinKeeps(v, accepts, p, key);
    case Leave(p) => RemoveKeeps(v, p);
    case PollReady(listed) => PollKeeps(v, listed);
    case _ => ExchangeStep(v, accepts, st);
  }

  /** The registry invariant over all joins, leaves, polls, rejoins, key arrivals and ceremonies. */
  lemma {:induction false} RegistryHistory(self: string, accepts: Accepts, steps: seq<Step>)
    ensures RegistryInv(After(Fresh(self), accepts, steps))
    ensures After(Fresh(self), accepts, steps).self == self
  {
    if steps != [] {
      RegistryHistory(self, accepts, steps[..|steps| - 1]);
      StepKeeps(After(Fresh(self), accepts, steps[..|steps| - 1]), accepts, steps[|steps| - 1]);
    }
  }

  /** Keys held for mesh peers. */
  function MeshKeys(v: View): set<string> {
    v.mesh * v.keys
  }

  /** ArePeersReady, as the program computes it. */
  predicate GateOpen(v: View, threshold: int) {
    && v.peers != {}
    && |v.peers| + 1 >= threshold + 1
    && v.ready
    && v.readyCount >= threshold + 1
    && |v.mesh| != 0
    && |MeshKeys(v)| >= |v.mesh|
  }

  /**
    After any history the gate is open exactly when the peers known at the last refresh
    exist and are all ready, they and this node make a quorum, and every mesh peer, hence
    every registered peer, has a symmetric key.
   */
  lemma GateMeaning(v: View, threshold: int)
    requires RegistryInv(v)
    ensures GateOpen(v, threshold) <==>
            && v.peers - v.joined != {} && v.peers - v.joined == ReadyPeers(v)
            && |ReadyPeers(v)| + 1 >= threshold + 1
            && v.mesh <= v.keys
    ensures GateOpen(v, threshold) ==> v.peers <= v.keys
  {
    CountsFull(v.mesh, v.keys);
    assert ReadyPeers(v) <= v.peers - v.joined;
    SubsetSize(ReadyPeers(v), v.peers);
    if v.peers != {} && v.mesh == {} {
      assert false;
    }
  }

  /** An open gate means that all peers are ready if and only if none joined since the last refresh. */
  lemma AllReadyIff(v: View, threshold: int)
    requires RegistryInv(v) && GateOpen(v, threshold)
    ensures v.peers == ReadyPeers(v) <==> v.joined == {}
  {
    GateMeaning(v, threshold);
  }

  /** The other case happens to every new peer: once its key is in, the gate reopens before it is ready. */
  lemma GateOpenBeforeReady(v: View, accepts: Accepts, p: string, key: PeerKey, threshold: int)
    requires RegistryInv(v) && GateOpen(v, threshold)
    requires p != v.self && p !in v.peers && accepts(p, key)
    ensures var n := Next(Next(v, accepts, Join(p, key)), accepts, KeyArrives(p));
            GateOpen(n, threshold) && p in n.peers && p !in ReadyPeers(n)
  {
    var m := Next(v, accepts, Join(p, key));
    var n := Next(m, accepts, KeyArrives(p));
    StepKeeps(v, accepts, Join(p, key));
    StepKeeps(m, accepts, KeyArrives(p));
    GateMeaning(v, threshold);
    assert ReadyPeers(n) == ReadyPeers(v);
    assert n.peers - n.joined == v.peers - v.joined;
    GateMeaning(n, threshold);
  }

  lemma After3(v: View, accepts: Accepts, a: Step, b: Step, c: Step)
    ensures After(v, accepts, [a, b, c]) == Next(Next(Next(v, accepts, a), accepts, b), accepts, c)
  {
    assert [a, b, c][..2] == [a, b] && [a, b][..1] == [a] && [a][..0] == [];
    assert After(v, accepts, [a]) == Next(v, accepts, a);
    assert After(v, accepts, [a, b]) == Next(After(v, accepts, [a]), accepts, b);
  }

  /** A fresh registry opens its gate once a peer has joined, is ready and has its key. */
  lemma GateOpens(self: string, accepts: Accepts, p: string, key: PeerKey, epoch: string)
    requires p != self && accepts(p, key)
    ensures GateOpen(After(Fresh(self), accepts, [Join(p, key), PollReady(map[p := epoch]), KeyArrives(p)]), 1)
  {
    var a := AddPeer(Fresh(self), accepts, p, key);
    assert a.peers == {p} && a.mesh == {p} && a.readyMap == map[];
    var b := Poll(a, map[p := epoch]);
    assert b.readyMap == map[p := true] && {p} * map[p := epoch].Keys == {p};
    assert b.peers == {p} && b.mesh == {p} && b.ready && b.readyCount == 2;
    assert MeshKeys(b.(keys := b.keys + {p})) == {p};
    After3(Fresh(self), accepts, Join(p, key), PollReady(map[p := epoch]), KeyArrives(p));
  }

  /**
    A reachable run, from a fresh registry, that ends with the gate open although a
    registered peer is not ready.
   */
  lemma GateOpenBeforeReadyReachable(self: string, accepts: Accepts, p: string, q: string, key: PeerKey, epoch: string)
    returns (steps: seq<Step>)
    requires p != q && p != self && q != self && accepts(p, key) && accepts(q, key)
    ensures var n := After(Fresh(self), accepts, steps);
            GateOpen(n, 1) && q in n.peers && q !in ReadyPeers(n)
  {
    var first := [Join(p, key), PollReady(map[p := epoch]), KeyArrives(p)];
    After3(Fresh(self), accepts, first[0], first[1], first[2]);
    GateOpens(self, accepts, p, key, epoch);
    RegistryHistory(self, accepts, first);
    var v := After(Fresh(self), accepts, first);
    GateOpenBeforeReady(v, accepts, q, key, 1);
    steps := first + [Join(q, key)] + [KeyArrives(q)];
    assert steps[..4] == first + [Join(q, key)] && steps[..4][..3] == first;
    assert After(Fresh(self), accepts, steps[..4]) == Next(v, accepts, Join(q, key));
  }
}

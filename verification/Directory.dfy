/**
  The incremental peer directory: WatchPeerDirectory of pkg/identity/dynamic_store.go
  with the registry callbacks of pkg/mpc/dynamic_registry.go.
 */
module Directory {
  import opened Ordering
  import opened Model = RegistryModel
  import opened Registry

  /** A value under the peer identity prefix. */
  datatype Entry = Malformed | Identity(id: string, key: PeerKey)

  /** The snapshot's peers without this node; the last entry for an id wins. */
  function Parsed(pairs: seq<Entry>, self: string): map<string, PeerKey> {
    if pairs == [] then map[]
    else
      var m, e := Parsed(pairs[..|pairs| - 1], self), pairs[|pairs| - 1];
      if e.Malformed? || e.id == self then m else m[e.id := e.key]
  }

  /** Entry i names p, and no later entry does. */
  ghost predicate LastEntry(pairs: seq<Entry>, p: string, i: nat) {
    && i < |pairs| && pairs[i].Identity? && pairs[i].id == p
    && forall j :: i < j < |pairs| && pairs[j].Identity? ==> pairs[j].id != p
  }

  lemma LastEntryNext(pairs: seq<Entry>, e: Entry, p: string, i: nat)
    ensures LastEntry(pairs + [e], p, i) <==>
            if e.Identity? && e.id == p then i == |pairs| else LastEntry(pairs, p, i)
  {
    var all := pairs + [e];
    assert forall j :: 0 <= j < |pairs| ==> all[j] == pairs[j];
    assert all[|pairs|] == e;
  }

  /** The last readable entry for an id decides; this node's own entries do not count. */
  lemma {:induction false} ParsedMeaning(pairs: seq<Entry>, self: string, p: string)
    ensures p == self ==> p !in Parsed(pairs, self)
    ensures p != self && p !in Parsed(pairs, self) ==> forall i: nat :: !LastEntry(pairs, p, i)
    ensures p in Parsed(pairs, self) ==> exists i: nat :: LastEntry(pairs, p, i) && pairs[i].key == Parsed(pairs, self)[p]
  {
    if pairs != [] {
      var before, e := pairs[..|pairs| - 1], pairs[|pairs| - 1];
      ParsedMeaning(before, self, p);
      assert pairs == before + [e];
      forall i: nat ensures LastEntry(pairs, p, i) <==>
                            if e.Identity? && e.id == p then i == |before| else LastEntry(before, p, i)
      {
        LastEntryNext(before, e, p, i);
      }
      if e.Identity? && e.id == p && p != self {
        assert LastEntry(pairs, p, |before|);
      } else if p in Parsed(before, self) {
        var i: nat :| LastEntry(before, p, i) && before[i].key == Parsed(before, self)[p];
        assert LastEntry(pairs, p, i) && pairs[i] == before[i];
      }
    }
  }

  /** An entry for an id has a last one. */
  lemma {:induction false} SomeLastEntry(pairs: seq<Entry>, p: string, i: nat) returns (k: nat)
    requires i < |pairs| && pairs[i].Identity? && pairs[i].id == p
    ensures LastEntry(pairs, p, k)
    decreases |pairs| - i
  {
    if j :| i < j < |pairs| && pairs[j].Identity? && pairs[j].id == p {
      k := SomeLastEntry(pairs, p, j);
    } else {
      k := i;
    }
  }

  // ----- one snapshot, as functions -----

  /** The store's keys after a snapshot: a peer that stays keeps the key first seen for it. */
  function Synced(pubs: map<string, PeerKey>, listed: map<string, PeerKey>): map<string, PeerKey> {
    map p | p in listed :: if p in pubs then pubs[p] else listed[p]
  }

  function SyncedStore(v: View, listed: map<string, PeerKey>): View {
    v.(pubs := Synced(v.pubs, listed), keys := v.keys - (v.pubs.Keys - listed.Keys))
  }

  /** The callback for an added peer: register it under its stored key. */
  function AddStored(v: View, accepts: Accepts, p: string): View {
    if p in v.pubs then Model.AddPeer(v, accepts, p, v.pubs[p]) else v
  }

  /** The callbacks for added peers, in this order. */
  function AddAll(v: View, accepts: Accepts, ids: seq<string>): View {
    if ids == [] then v else AddStored(AddAll(v, accepts, ids[..|ids| - 1]), accepts, ids[|ids| - 1])
  }

  function RemoveAll(v: View, ids: seq<string>): View {
    if ids == [] then v else Model.RemovePeer(RemoveAll(v, ids[..|ids| - 1]), ids[|ids| - 1])
  }

  /** A snapshot with its callbacks; `added` and `removed` list the changes in the order visited. */
  datatype Snapshot = Snapshot(listed: map<string, PeerKey>, added: seq<string>, removed: seq<string>)

  function Applied(v: View, accepts: Accepts, s: Snapshot): View {
    RemoveAll(AddAll(SyncedStore(v, s.listed), accepts, s.added), s.removed)
  }

  ghost predicate Fits(v: View, s: Snapshot) {
    && v.self !in s.listed
    && Elems(s.added) == s.listed.Keys - v.pubs.Keys
    && Elems(s.removed) == v.pubs.Keys - s.listed.Keys
  }

  // ----- refinement -----

  function Accepted(accepts: Accepts, pubs: map<string, PeerKey>): set<string> {
    set p | p in pubs && accepts(p, pubs[p])
  }

  /** The registry holds exactly the stored peers whose stored key is accepted. */
  ghost predicate DirectoryInv(v: View, accepts: Accepts) {
    v.self !in v.pubs && v.peers == Accepted(accepts, v.pubs) && RegistryInv(v)
  }

  lemma AddStoredPeer(u: View, accepts: Accepts, p: string)
    requires p != u.self && p in u.pubs
    ensures var n := AddStored(u, accepts, p);
            n.self == u.self && n.pubs == u.pubs && n.peers == u.peers + {p} * Accepted(accepts, u.pubs)
  {
    assert u.pubs[p := u.pubs[p]] == u.pubs;
  }

  lemma AddStoredKeeps(u: View, accepts: Accepts, p: string)
    requires RegistryInv(u)
    ensures RegistryInv(AddStored(u, accepts, p))
  {
    if p in u.pubs {
      JoinKeeps(u, accepts, p, u.pubs[p]);
    }
  }

  lemma {:induction false} AddAllPeers(v: View, accepts: Accepts, ids: seq<string>)
    requires RegistryInv(v) && v.self !in v.pubs && Elems(ids) <= v.pubs.Keys
    ensures RegistryInv(AddAll(v, accepts, ids))
    ensures var n := AddAll(v, accepts, ids);
            n.self == v.self && n.pubs == v.pubs && n.peers == v.peers + Elems(ids) * Accepted(accepts, v.pubs)
  {
    if ids != [] {
      var before, p := ids[..|ids| - 1], ids[|ids| - 1];
      assert Elems(ids) == Elems(before) + {p};
      AddAllPeers(v, accepts, before);
      AddStoredPeer(AddAll(v, accepts, before), accepts, p);
      AddStoredKeeps(AddAll(v, accepts, before), accepts, p);
    }
  }

  lemma {:induction false} RemoveAllPeers(v: View, ids: seq<string>)
    requires RegistryInv(v) && Elems(ids) !! v.pubs.Keys
    ensures var n := RemoveAll(v, ids);
            RegistryInv(n) && n.self == v.self && n.pubs == v.pubs && n.peers == v.peers - Elems(ids)
  {
    if ids != [] {
      var before, p := ids[..|ids| - 1], ids[|ids| - 1];
      assert Elems(ids) == Elems(before) + {p};
      RemoveAllPeers(v, before);
      assert v.pubs - {p} == v.pubs;
      RemoveKeeps(RemoveAll(v, before), p);
    }
  }

  /** Adding the accepted newcomers and dropping the departed gives the accepted peers of the new store. */
  lemma SyncedAccepted(accepts: Accepts, pubs: map<string, PeerKey>, listed: map<string, PeerKey>)
    ensures var after := Accepted(accepts, Synced(pubs, listed));
            after == Accepted(accepts, pubs) + (listed.Keys - pubs.Keys) * after - (pubs.Keys - listed.Keys)
  {
  }

  /** One snapshot, its changes visited in any order. */
  lemma SnapshotRefines(v: View, accepts: Accepts, s: Snapshot)
    requires DirectoryInv(v, accepts) && Fits(v, s)
    ensures var n := Applied(v, accepts, s);
            DirectoryInv(n, accepts) && n.self == v.self && n.pubs == Synced(v.pubs, s.listed)
  {
    var a := SyncedStore(v, s.listed);
    AddAllPeers(a, accepts, s.added);
    RemoveAllPeers(AddAll(a, accepts, s.added), s.removed);
    SyncedAccepted(accepts, v.pubs, s.listed);
  }

  // ----- a running node -----

  /** The node between two steps: its registry and the callbacks that the watcher still has to fire. */
  datatype Node = Node(view: View, added: seq<string>, removed: seq<string>)

  /**
    What happens on a running node: the watcher takes the difference to a new listing, or
    fires the next callback; or, at any time in between, there is a poll, rejoin, key arrival
    or ceremony.  Peers join and leave through callbacks only.
   */
  datatype Event = Diff(snapshot: Snapshot) | Added | Removed | Between(step: Step)

  /** One watcher fires all callbacks of a listing, the additions first, before it reads the next. */
  ghost predicate Possible(n: Node, e: Event) {
    match e
    case Diff(s) => n.added == [] && n.removed == [] && Fits(n.view, s)
    case Added => n.added != []
    case Removed => n.added == [] && n.removed != []
    case Between(st) => !st.Join? && !st.Leave?
  }

  ghost function Happened(n: Node, accepts: Accepts, e: Event): Node
    requires Possible(n, e)
  {
    match e
    case Diff(s) => Node(SyncedStore(n.view, s.listed), s.added, s.removed)
    case Added => Node(AddStored(n.view, accepts, n.added[0]), n.added[1..], n.removed)
    case Removed => Node(Model.RemovePeer(n.view, n.removed[0]), n.added, n.removed[1..])
    case Between(st) => n.(view := Next(n.view, accepts, st))
  }

  /** `events` leads from n to m. */
  ghost predicate Leads(n: Node, accepts: Accepts, events: seq<Event>, m: Node)
    decreases |events|
  {
    if events == [] then n == m
    else Possible(n, events[0]) && Leads(Happened(n, accepts, events[0]), accepts, events[1..], m)
  }

  /** The peers of the last listing, or those known at the start. */
  function LastListed(start: set<string>, events: seq<Event>): set<string> {
    if events == [] then start
    else
      var last := events[|events| - 1];
      if last.Diff? then last.snapshot.listed.Keys else LastListed(start, events[..|events| - 1])
  }

  /** Apart from those about to leave, `peers` are accepted ones, and all of them but those about to be added. */
  ghost predicate Pending(accepted: set<string>, added: set<string>, peers: set<string>, removed: set<string>) {
    accepted - added <= peers - removed && peers - removed <= accepted
  }

  lemma PendingDiff(before: set<string>, after: set<string>, added: set<string>, removed: set<string>)
    requires after == before + added * after - removed
    ensures Pending(after, added, before, removed)
  {
  }

  lemma PendingAdded(accepted: set<string>, p: string, added: set<string>, peers: set<string>, removed: set<string>)
    requires Pending(accepted, {p} + added, peers, removed) && p !in removed
    ensures Pending(accepted, added, peers + {p} * accepted, removed)
  {
    forall x | x in accepted - added ensures x in peers + {p} * accepted - removed {
      if x != p {
        assert x in accepted - ({p} + added);
      }
    }
  }

  lemma PendingRemoved(accepted: set<string>, added: set<string>, peers: set<string>, p: string, removed: set<string>)
    requires Pending(accepted, added, peers, {p} + removed)
    ensures Pending(accepted, added, peers - {p}, removed)
  {
    assert peers - {p} - removed == peers - ({p} + removed);
  }

  lemma NonePending(accepted: set<string>, peers: set<string>)
    ensures Pending(accepted, {}, peers, {}) <==> peers == accepted
  {
    assert accepted - {} == accepted && peers - {} == peers;
  }

  lemma NoElems()
    ensures Elems<string>([]) == {}
  {
  }

  /** The registry agrees with the store up to the outstanding callbacks. */
  ghost predicate NodeInv(n: Node, accepts: Accepts) {
    && RegistryInv(n.view) && n.view.self !in n.view.pubs
    && Elems(n.added) <= n.view.pubs.Keys && Elems(n.removed) !! n.view.pubs.Keys
    && Pending(Accepted(accepts, n.view.pubs), Elems(n.added), n.view.peers, Elems(n.removed))
  }

  lemma BetweenFrame(v: View, accepts: Accepts, st: Step)
    requires !st.Join? && !st.Leave?
    ensures Next(v, accepts, st).self == v.self && Next(v, accepts, st).peers == v.peers && Next(v, accepts, st).pubs == v.pubs
  {
    match st
    case PollReady(listed) => PollFrame(v, listed);
    case RejoinPeer(p) =>
    case KeyArrives(p) =>
    case Ceremony(committee) =>
  }

  lemma PollFrame(v: View, listed: map<string, string>)
    ensures Poll(v, listed).self == v.self && Poll(v, listed).peers == v.peers && Poll(v, listed).pubs == v.pubs
  {
  }

  lemma BetweenKeeps(n: Node, accepts: Accepts, st: Step)
    requires NodeInv(n, accepts) && !st.Join? && !st.Leave?
    ensures NodeInv(n.(view := Next(n.view, accepts, st)), accepts) && Next(n.view, accepts, st).pubs == n.view.pubs
  {
    BetweenFrame(n.view, accepts, st);
    assert RegistryInv(Next(n.view, accepts, st)) by { StepKeeps(n.view, accepts, st); }
  }

  lemma DiffKeeps(n: Node, accepts: Accepts, s: Snapshot)
    requires NodeInv(n, accepts) && Possible(n, Diff(s))
    ensures NodeInv(Happened(n, accepts, Diff(s)), accepts)
    ensures Happened(n, accepts, Diff(s)).view.pubs.Keys == s.listed.Keys
  {
    NoElems();
    NonePending(Accepted(accepts, n.view.pubs), n.view.peers);
    SyncedAccepted(accepts, n.view.pubs, s.listed);
    PendingDiff(n.view.peers, Accepted(accepts, Synced(n.view.pubs, s.listed)), Elems(s.added), Elems(s.removed));
  }

  lemma AddedKeeps(n: Node, accepts: Accepts)
    requires NodeInv(n, accepts) && Possible(n, Added)
    ensures NodeInv(Happened(n, accepts, Added), accepts) && Happened(n, accepts, Added).view.pubs == n.view.pubs
  {
    var p := n.added[0];
    assert Elems(n.added) == {p} + Elems(n.added[1..]);
    PendingAdded(Accepted(accepts, n.view.pubs), p, Elems(n.added[1..]), n.view.peers, Elems(n.removed));
    AddStoredPeer(n.view, accepts, p);
    AddStoredKeeps(n.view, accepts, p);
  }

  lemma RemovedKeeps(n: Node, accepts: Accepts)
    requires NodeInv(n, accepts) && Possible(n, Removed)
    ensures NodeInv(Happened(n, accepts, Removed), accepts) && Happened(n, accepts, Removed).view.pubs == n.view.pubs
  {
    var p := n.removed[0];
    assert Elems(n.removed) == {p} + Elems(n.removed[1..]);
    PendingRemoved(Accepted(accepts, n.view.pubs), Elems(n.added), n.view.peers, p, Elems(n.removed[1..]));
    RemoveUnstored(n.view, p);
    RemoveKeeps(n.view, p);
  }

  lemma RemoveUnstored(v: View, p: string)
    requires p !in v.pubs
    ensures Model.RemovePeer(v, p).pubs == v.pubs && Model.RemovePeer(v, p).peers == v.peers - {p}
    ensures Model.RemovePeer(v, p).self == v.self
  {
    assert v.pubs - {p} == v.pubs;
  }

  lemma EventKeeps(n: Node, accepts: Accepts, e: Event)
    requires NodeInv(n, accepts) && Possible(n, e)
    ensures NodeInv(Happened(n, accepts, e), accepts)
    ensures Happened(n, accepts, e).view.pubs.Keys == if e.Diff? then e.snapshot.listed.Keys else n.view.pubs.Keys
  {
    match e
    case Diff(s) => DiffKeeps(n, accepts, s);
    case Added => AddedKeeps(n, accepts);
    case Removed => RemovedKeeps(n, accepts);
    case Between(st) => BetweenKeeps(n, accepts, st);
  }

  lemma {:induction false} LastListedFirst(start: set<string>, e: Event, rest: seq<Event>)
    ensures LastListed(start, [e] + rest) == LastListed(if e.Diff? then e.snapshot.listed.Keys else start, rest)
  {
    var all := [e] + rest;
    if rest == [] {
      assert all == [e];
    } else {
      assert all[..|all| - 1] == [e] + rest[..|rest| - 1];
      LastListedFirst(start, e, rest[..|rest| - 1]);
    }
  }

  /**
    After any history of listings and callbacks, with polls, rejoins, key arrivals and
    ceremonies anywhere between them, the store's peers are exactly the last listing's, and
    whenever no callback is outstanding the registry's peers are exactly those whose stored
    key is accepted.
   */
  lemma {:induction false} DirectoryRefines(n: Node, accepts: Accepts, events: seq<Event>, m: Node)
    requires NodeInv(n, accepts) && Leads(n, accepts, events, m)
    ensures NodeInv(m, accepts) && m.view.pubs.Keys == LastListed(n.view.pubs.Keys, events)
    ensures m.added == [] && m.removed == [] ==> DirectoryInv(m.view, accepts)
    decreases |events|
  {
    if events != [] {
      EventKeeps(n, accepts, events[0]);
      DirectoryRefines(Happened(n, accepts, events[0]), accepts, events[1..], m);
      LastListedFirst(n.view.pubs.Keys, events[0], events[1..]);
      assert events == [events[0]] + events[1..];
    }
    NoElems();
    NonePending(Accepted(accepts, m.view.pubs), m.view.peers);
  }

  /** Startup: the preloaded peers enter the mesh and are offered to the registry, in some order. */
  function Started(self: string, accepts: Accepts, pubs: map<string, PeerKey>, order: seq<string>): View {
    AddAll(Fresh(self).(mesh := pubs.Keys, pubs := pubs), accepts, order)
  }

  /** A node's whole life: startup on a preloaded store, then any history. */
  lemma DirectoryFromStartup(self: string, accepts: Accepts, pubs: map<string, PeerKey>, order: seq<string>,
                             events: seq<Event>, m: Node)
    requires self !in pubs && Elems(order) == pubs.Keys
    requires Leads(Node(Started(self, accepts, pubs, order), [], []), accepts, events, m)
    ensures m.view.pubs.Keys == LastListed(pubs.Keys, events)
    ensures m.added == [] && m.removed == [] ==> DirectoryInv(m.view, accepts)
  {
    var preloaded := Fresh(self).(mesh := pubs.Keys, pubs := pubs);
    AddAllPeers(preloaded, accepts, order);
    assert pubs.Keys * Accepted(accepts, pubs) == Accepted(accepts, pubs);
    NoElems();
    NonePending(Accepted(accepts, pubs), Started(self, accepts, pubs, order).peers);
    DirectoryRefines(Node(Started(self, accepts, pubs, order), [], []), accepts, events, m);
  }

  /**
    The store after a snapshot, peer by peer: one that is present before and after keeps its
    stored key, whatever the snapshot says; a newcomer is stored under the listed key; one
    that is not listed is gone, with its symmetric key.
   */
  lemma StoredKeyKept(v: View, accepts: Accepts, s: Snapshot, p: string)
    requires DirectoryInv(v, accepts) && Fits(v, s)
    ensures var n := Applied(v, accepts, s);
            && (p in n.pubs <==> p in s.listed)
            && (p in s.listed ==> n.pubs[p] == if p in v.pubs then v.pubs[p] else s.listed[p])
            && (p in v.pubs && p !in s.listed ==> p !in n.keys)
  {
    SnapshotRefines(v, accepts, s);
    var a := SyncedStore(v, s.listed);
    AddAllKeys(a, accepts, s.added);
    RemoveAllKeys(AddAll(a, accepts, s.added), s.removed);
  }

  lemma {:induction false} AddAllKeys(v: View, accepts: Accepts, ids: seq<string>)
    ensures AddAll(v, accepts, ids).keys <= v.keys
  {
    if ids != [] {
      AddAllKeys(v, accepts, ids[..|ids| - 1]);
    }
  }

  lemma {:induction false} RemoveAllKeys(v: View, ids: seq<string>)
    ensures RemoveAll(v, ids).keys <= v.keys
  {
    if ids != [] {
      RemoveAllKeys(v, ids[..|ids| - 1]);
    }
  }

  // ----- the program -----

  method ParsePeers(pairs: seq<Entry>, self: string) returns (listed: map<string, PeerKey>)
    ensures listed == Parsed(pairs, self) && self !in listed
  {
    listed := map[];
    for i := 0 to |pairs|
      invariant listed == Parsed(pairs[..i], self) && self !in listed
    {
      assert pairs[..i + 1][..i] == pairs[..i];
      if pairs[i].Identity? && pairs[i].id != self {
        listed := listed[pairs[i].id := pairs[i].key];
      }
    }
    assert pairs[..|pairs|] == pairs;
  }

  /** The additions of the diff, in some order. */
  method DiffAdded(store: IdentityStore, listed: map<string, PeerKey>) returns (added: seq<string>)
    modifies store`pubs
    ensures Elems(added) == listed.Keys - old(store.pubs.Keys)
    ensures store.pubs == listed + old(store.pubs)
  {
    added := [];
    ghost var before := store.pubs;
    var todo := listed.Keys;
    while todo != {}
      invariant todo <= listed.Keys
      invariant Elems(added) == listed.Keys - todo - before.Keys
      invariant store.pubs == (map p | p in listed && p !in todo :: listed[p]) + before
    {
      var p :| p in todo;
      if p !in store.pubs {
        store.pubs := store.pubs[p := listed[p]];
        assert Elems(added + [p]) == Elems(added) + {p};
        added := added + [p];
      }
      todo := todo - {p};
    }
  }

  /** The removals of the diff, in some order. */
  method DiffRemoved(store: IdentityStore, listed: map<string, PeerKey>) returns (removed: seq<string>)
    modifies store
    ensures Elems(removed) == old(store.pubs.Keys) - listed.Keys
    ensures store.pubs == old(store.pubs) - Elems(removed) && store.keys == old(store.keys) - Elems(removed)
  {
    removed := [];
    ghost var pubs, keys := store.pubs, store.keys;
    var todo := store.pubs.Keys;
    while todo != {}
      invariant todo <= pubs.Keys
      invariant Elems(removed) == pubs.Keys - todo - listed.Keys
      invariant store.pubs == pubs - Elems(removed) && store.keys == keys - Elems(removed)
    {
      var p :| p in todo;
      if p !in listed {
        assert Elems(removed + [p]) == Elems(removed) + {p};
        removed := removed + [p];
        store.pubs := store.pubs - {p};
        store.keys := store.keys - {p};
      }
      todo := todo - {p};
    }
  }

  lemma SyncedByDiff(pubs: map<string, PeerKey>, listed: map<string, PeerKey>)
    ensures (listed + pubs) - (pubs.Keys - listed.Keys) == Synced(pubs, listed)
    ensures (listed + pubs).Keys - listed.Keys == pubs.Keys - listed.Keys
  {
  }

  method DiffStore(reg: DynamicRegistry, listed: map<string, PeerKey>) returns (added: seq<string>, removed: seq<string>)
    modifies reg.store
    ensures reg.State() == SyncedStore(old(reg.State()), listed)
    ensures Elems(added) == listed.Keys - old(reg.store.pubs.Keys)
    ensures Elems(removed) == old(reg.store.pubs.Keys) - listed.Keys
  {
    SyncedByDiff(reg.store.pubs, listed);
    added := DiffAdded(reg.store, listed);
    removed := DiffRemoved(reg.store, listed);
  }

  method CallbacksAdded(reg: DynamicRegistry, ids: seq<string>)
    requires reg.Valid()
    modifies reg, reg.session, reg.store
    ensures reg.Valid() && reg.State() == AddAll(old(reg.State()), reg.accepts, ids)
  {
    ghost var v := reg.State();
    for i := 0 to |ids|
      invariant reg.Valid() && reg.State() == AddAll(v, reg.accepts, ids[..i])
    {
      assert ids[..i + 1][..i] == ids[..i];
      if ids[i] in reg.store.pubs {
        var _ := reg.AddPeer(ids[i], reg.store.pubs[ids[i]]);
      }
    }
    assert ids[..|ids|] == ids;
  }

  method CallbacksRemoved(reg: DynamicRegistry, ids: seq<string>)
    requires reg.Valid()
    modifies reg, reg.store
    ensures reg.Valid() && reg.State() == RemoveAll(old(reg.State()), ids)
  {
    ghost var v := reg.State();
    for i := 0 to |ids|
      invariant reg.Valid() && reg.State() == RemoveAll(v, ids[..i])
    {
      assert ids[..i + 1][..i] == ids[..i];
      var _ := reg.RemovePeer(ids[i]);
    }
    assert ids[..|ids|] == ids;
  }

  /** The body of the watch loop for one listing: diff the store, then fire the callbacks. */
  method OnListing(reg: DynamicRegistry, pairs: seq<Entry>) returns (ghost s: Snapshot)
    requires reg.Valid() && DirectoryInv(reg.State(), reg.accepts)
    modifies reg, reg.session, reg.store
    ensures reg.Valid() && DirectoryInv(reg.State(), reg.accepts)
    ensures s.listed == Parsed(pairs, reg.self) && Fits(old(reg.State()), s)
    ensures reg.State() == Applied(old(reg.State()), reg.accepts, s)
    ensures reg.store.pubs == Synced(old(reg.store.pubs), Parsed(pairs, reg.self))
  {
    ghost var v := reg.State();
    var listed := ParsePeers(pairs, reg.self);
    var added, removed := DiffStore(reg, listed);
    s := Snapshot(listed, added, removed);
    SnapshotRefines(v, reg.accepts, s);
    CallbacksAdded(reg, added);
    CallbacksRemoved(reg, removed);
  }
}

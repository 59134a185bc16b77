/** The keygen party of a wallet (GetKeygenParty in pkg/mpc/dynamic_registry.go). */
module Keygen {
  import opened Ordering
  import opened Committee
  import opened RegistryModel
  import opened Registry

  /** The committee chosen from a ready list, or nobody: never the whole ready set. */
  ghost function Party(sha: string -> string, p: Policy, wallet: string, ready: seq<string>): seq<string> {
    var r := Select(sha, p, wallet, [], ready);
    if r.Ok? then r.value.nodeIDs else []
  }

  /**
    Agreement: nodes that see the same ready set compute the same party, in whatever order
    they list it; a non-empty party is a quorum of ready nodes within the cap.
   */
  lemma KeygenAgreement(sha: string -> string, p: Policy, wallet: string, ready1: seq<string>, ready2: seq<string>)
    requires Elems(ready1) == Elems(ready2)
    ensures Party(sha, p, wallet, ready1) == Party(sha, p, wallet, ready2)
    ensures Party(sha, p, wallet, ready1) != [] <==>
            ValidPolicy(p) && wallet != "" && |Elems(ready1) - {""}| >= p.threshold + 1
    ensures Party(sha, p, wallet, ready1) != [] ==>
              && p.threshold + 1 <= |Party(sha, p, wallet, ready1)| <= p.cap
              && Elems(Party(sha, p, wallet, ready1)) <= Elems(ready1)
              && Select(sha, p, wallet, [], ready1).Ok?
              && Party(sha, p, wallet, ready1) == Select(sha, p, wallet, [], ready1).value.nodeIDs
  {
    SelectCanonical(sha, p, wallet, [], ready1, [], ready2);
    SelectSucceedsIff(sha, p, wallet, [], ready1);
  }

  /** The party is determined by the set of ready nodes, whatever order the map yields them in. */
  method GetKeygenParty(reg: DynamicRegistry, sha: string -> string, p: Policy, filtered: bool, wallet: string)
    returns (party: seq<string>)
    ensures !filtered ==> Elems(party) == ReadyNodes(reg)
    ensures filtered ==> forall ready :: Elems(ready) == ReadyNodes(reg) ==> party == Party(sha, p, wallet, ready)
  {
    var ids := reg.GetReadyPeersIncludeSelf();
    if !filtered {
      return ids;
    }
    forall ready | Elems(ready) == ReadyNodes(reg)
      ensures Party(sha, p, wallet, ready) == Party(sha, p, wallet, ids)
    {
      KeygenAgreement(sha, p, wallet, ready, ids);
    }
    var r := SelectCommittee(sha, p, wallet, [], ids);
    if r.Err? {
      return [];
    }
    return r.value.nodeIDs;
  }

  ghost function ReadyNodes(reg: DynamicRegistry): set<string>
    reads reg
  {
    TrueKeys(reg.readyMap) + {reg.self}
  }

  /** Two nodes that see the same nodes ready start keygen with the same party. */
  method TwoNodesAgree(a: DynamicRegistry, b: DynamicRegistry, sha: string -> string, p: Policy, wallet: string)
    returns (partyA: seq<string>, partyB: seq<string>)
    requires ReadyNodes(a) == ReadyNodes(b)
    ensures partyA == partyB
    ensures partyA != [] ==> p.threshold + 1 <= |partyA| <= p.cap && Elems(partyA) <= ReadyNodes(a)
  {
    partyA := GetKeygenParty(a, sha, p, true, wallet);
    partyB := GetKeygenParty(b, sha, p, true, wallet);
    ghost var ids := Listing(ReadyNodes(a));
    KeygenAgreement(sha, p, wallet, ids, ids);
  }

  ghost function Listing(s: set<string>): (ids: seq<string>)
    ensures Elems(ids) == s
  {
    if s == {} then []
    else
      var x :| x in s;
      assert Elems(Listing(s - {x}) + [x]) == Elems(Listing(s - {x})) + {x};
      Listing(s - {x}) + [x]
  }
}

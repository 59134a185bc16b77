/**
  Authorizer signatures: collection by the orchestrator (pkg/orchestrator/authorizer.go)
  and the node-side check (AuthorizeInitiatorMessage in pkg/identity/dynamic_store.go).
 */
module Authorizer {
  import opened Types

  type Bytes = seq<bv8>

  /** A signer and what it answers for the message at hand; None is a signing error. */
  datatype Signer = Signer(id: string, reply: Option<Bytes>)

  datatype Signature = Signature(authorizer: string, bytes: Bytes)

  // ----- the orchestrator side -----

  /** One non-empty signature per signer, in order. */
  ghost predicate Collected(signers: seq<Signer>, sigs: seq<Signature>) {
    && |sigs| == |signers|
    && forall i :: 0 <= i < |signers| ==>
         signers[i].reply == Some(sigs[i].bytes) && sigs[i].authorizer == signers[i].id && sigs[i].bytes != []
  }

  /** Fail-closed: one signature per signer in order, or nothing on a repeated id, an error or an empty signature. */
  method Collect(signers: seq<Signer>) returns (r: Option<seq<Signature>>)
    ensures r.Some? <==>
            && (forall i, j :: 0 <= i < j < |signers| ==> signers[i].id != signers[j].id)
            && (forall i :: 0 <= i < |signers| ==> signers[i].reply.Some? && signers[i].reply.value != [])
    ensures r.Some? ==> Collected(signers, r.value)
  {
    var out: seq<Signature> := [];
    var seen: set<string> := {};
    for i := 0 to |signers|
      invariant Collected(signers[..i], out)
      invariant forall j :: 0 <= j < i ==> signers[j].id in seen
      invariant forall id :: id in seen ==> exists j :: 0 <= j < i && signers[j].id == id
      invariant forall j, k :: 0 <= j < k < i ==> signers[j].id != signers[k].id
    {
      if signers[i].id in seen { return None; }
      seen := seen + {signers[i].id};
      if signers[i].reply.None? { return None; }
      if |signers[i].reply.value| == 0 { return None; }
      out := out + [Signature(signers[i].id, signers[i].reply.value)];
    }
    assert signers[..|signers|] == signers;
    return Some(out);
  }

  // ----- the node side -----

  /** The ids that must sign, and those with a configured public key. */
  datatype AuthConfig = AuthConfig(enabled: bool, required: seq<string>, configured: set<string>)

  ghost predicate SignedBy(sigs: seq<Signature>, id: string) {
    exists s :: s in sigs && s.authorizer == id
  }

  ghost predicate Acceptable(cfg: AuthConfig, verifies: Signature -> bool, sigs: seq<Signature>, composes: bool) {
    cfg.enabled ==>
      && (forall id :: id in cfg.required ==> SignedBy(sigs, id))
      && (sigs != [] ==> composes)
      && (forall s :: s in sigs ==> s.authorizer in cfg.configured && verifies(s))
  }

  /** Authorization is off; or every required id signed, and every signature verifies under a configured key. */
  ghost predicate Authorized(cfg: AuthConfig, verifies: Signature -> bool, sigs: seq<Signature>, composes: bool) {
    || !cfg.enabled
    || (&& (forall id :: id in cfg.required ==> exists i :: 0 <= i < |sigs| && sigs[i].authorizer == id)
        && (sigs != [] ==> composes)
        && (forall i :: 0 <= i < |sigs| ==> sigs[i].authorizer in cfg.configured && verifies(sigs[i])))
  }

  lemma AcceptableMeans(cfg: AuthConfig, verifies: Signature -> bool, sigs: seq<Signature>, composes: bool)
    ensures Acceptable(cfg, verifies, sigs, composes) <==> Authorized(cfg, verifies, sigs, composes)
  {
    forall id ensures SignedBy(sigs, id) <==> exists i :: 0 <= i < |sigs| && sigs[i].authorizer == id {
      if i :| 0 <= i < |sigs| && sigs[i].authorizer == id {
        assert sigs[i] in sigs;
      }
    }
    assert forall i :: 0 <= i < |sigs| ==> sigs[i] in sigs;
  }

  method AuthorizeInitiatorMessage(cfg: AuthConfig, verifies: Signature -> bool, sigs: seq<Signature>, composes: bool)
    returns (ok: bool)
    ensures ok <==> Acceptable(cfg, verifies, sigs, composes)
    ensures ok <==> Authorized(cfg, verifies, sigs, composes)
  {
    AcceptableMeans(cfg, verifies, sigs, composes);
    if !cfg.enabled { return true; }
    if |cfg.required| > 0 {
      var provided: set<string> := {};
      for i := 0 to |sigs|
        invariant forall id :: id in provided <==> SignedBy(sigs[..i], id)
      {
        assert sigs[..i + 1] == sigs[..i] + [sigs[i]];
        provided := provided + {sigs[i].authorizer};
      }
      assert sigs[..|sigs|] == sigs;
      for i := 0 to |cfg.required|
        invariant forall j :: 0 <= j < i ==> cfg.required[j] in provided
      {
        assert cfg.required[i] in cfg.required;
        if cfg.required[i] !in provided { return false; }
      }
    }
    if |sigs| == 0 { return true; }
    if !composes { return false; }
    for i := 0 to |sigs|
      invariant forall j :: 0 <= j < i ==> sigs[j].authorizer in cfg.configured && verifies(sigs[j])
    {
      if sigs[i].authorizer !in cfg.configured || !verifies(sigs[i]) { return false; }
    }
    return true;
  }

  /**
    Composition: a node with authorization enabled accepts what Collect returns exactly when
    its required ids are among the signers and every signer has a configured key under which
    its signature verifies.
   */
  lemma CollectedAccepted(signers: seq<Signer>, sigs: seq<Signature>, cfg: AuthConfig, verifies: Signature -> bool)
    requires Collected(signers, sigs) && cfg.enabled
    ensures Authorized(cfg, verifies, sigs, true) <==>
            && (forall id :: id in cfg.required ==> exists i :: 0 <= i < |signers| && signers[i].id == id)
            && (forall i :: 0 <= i < |signers| ==>
                  signers[i].id in cfg.configured && verifies(Signature(signers[i].id, signers[i].reply.value)))
  {
    assert forall i :: 0 <= i < |sigs| ==> sigs[i] == Signature(signers[i].id, signers[i].reply.value);
    forall id | id in cfg.required
      ensures (exists i :: 0 <= i < |sigs| && sigs[i].authorizer == id) <==> exists i :: 0 <= i < |signers| && signers[i].id == id
    {
      if i :| 0 <= i < |signers| && signers[i].id == id {
        assert sigs[i].authorizer == id;
      }
      if i :| 0 <= i < |sigs| && sigs[i].authorizer == id {
        assert signers[i].id == id;
      }
    }
  }
}

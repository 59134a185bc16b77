/**
  The guards across stores and scan: what the verifier and the lock manager have recorded
  about a wallet decides whether a scan may publish it.
 */
module Guards {
  import opened Types
  import opened Ordering
  import opened Committee
  import opened Trigger
  import V = Verifier
  import L = LockManager
  import opened R = Reconciler

  /** What a freeze check answers on a given store, unless the read fails. */
  predicate FrozenAnswer(store: V.Store, w: string, a: Answer) {
    a.Failed? || (a.Yes? <==> w in store.frozen)
  }

  /** What a cooldown check answers on given entries, unless the read fails. */
  predicate CooldownAnswer(entries: map<string, L.Cooldown>, w: string, now: int, a: Answer) {
    a.Failed? || (a.Yes? <==> L.Eligible(entries, w, now))
  }

  /** Once any observed key differed, no later scan publishes the wallet. */
  lemma FrozenNeverPublished(history: seq<V.Call>, later: seq<V.Call>, cfg: Config, sha: string -> string,
                             snap: Snapshot, pool: seq<string>, w: Wallet, streak: map<string, nat>, replies: Replies)
    requires cfg.policy.tiers != []
    requires exists kind :: V.Changes(V.Observed(history, w.id, kind))
    requires FrozenAnswer(V.StoreAfter(history + later), w.id, replies.frozen)
    ensures !Decide(cfg, sha, snap, pool, w, streak, replies).0.Triggered?
  {
    V.FrozenIff(history, w.id);
    V.FreezePermanent(history, later);
    assert w.id in V.StoreAfter(history + later).frozen && !replies.frozen.No?;
  }

  /**
    A scan whose cooldown read comes after the wallet's last mark and within its window does
    not publish it: after a success that is the success cooldown, after the n-th failure in a
    row min(max, failure * 2^(n-1)).  `history` holds the marks made before the read.
   */
  lemma CoolingNeverPublished(locks: L.Config, history: seq<(string, L.Mark)>, readAt: int, cfg: Config, sha: string -> string,
                              snap: Snapshot, pool: seq<string>, w: Wallet, streak: map<string, nat>, replies: Replies)
    requires cfg.policy.tiers != [] && L.SoundConfig(locks)
    requires L.WindowEnd(locks, history, w.id).Some? && readAt <= L.WindowEnd(locks, history, w.id).value
    requires CooldownAnswer(L.MarkedAll(locks, map[], history), w.id, readAt, replies.cooldown)
    ensures !Decide(cfg, sha, snap, pool, w, streak, replies).0.Triggered?
  {
    L.EligibleIff(locks, history, w.id, readAt);
    assert !replies.cooldown.Yes?;
  }

  /**
    The cooldown is read before the lock is taken, so a mark made in between is not seen:
    whatever the marks before the read, a confirmed wallet that passes the read is published
    although a run of it has ended meanwhile, inside the window that its mark has opened.
   */
  lemma ReadBeforeMark(locks: L.Config, history: seq<(string, L.Mark)>, mark: L.Mark, readAt: int, cfg: Config,
                       sha: string -> string, snap: Snapshot, pool: seq<string>, w: Wallet, streak: map<string, nat>)
    requires ValidPolicy(cfg.policy) && IsPool(snap, pool) && Confirmed(cfg, snap, pool, w, streak)
    requires L.SoundConfig(locks) && locks.success > 0
    requires L.Eligible(L.MarkedAll(locks, map[], history), w.id, readAt)
    ensures CooldownAnswer(L.MarkedAll(locks, map[], history), w.id, readAt, Yes)
    ensures Decide(cfg, sha, snap, pool, w, streak, Replies(No, Yes, Yes)).0.Triggered?
    ensures L.WindowEnd(locks, history + [(w.id, mark)], w.id).Some?
    ensures mark.at < L.WindowEnd(locks, history + [(w.id, mark)], w.id).value
  {
    ConfirmedPublished(cfg, sha, snap, pool, w, streak);
    L.MarkOpensWindow(locks, history, mark, w.id);
  }

  /** Such wallets exist: on three of five ready nodes, one short of the spare the default policy wants. */
  lemma SpareMissing(nodes: seq<string>, id: string)
    requires StrictlySorted(nodes, StringLe) && |nodes| == 5 && "" !in nodes && id != ""
    ensures var all := Elems(nodes);
            && IsPool(Snapshot(all, all, all), nodes)
            && Confirmed(Config(DefaultPolicy(), false, 3, 1), Snapshot(all, all, all), nodes,
                         Wallet(id, map[Eddsa := WalletKey(nodes[..3], 2, 1)]), map[])
  {
    DefaultPolicyTable(5);
    assert forall x :: x in nodes[..3] ==> x in nodes;
    RestrictAll(nodes[..3], Elems(nodes));
  }

  /**
    The loop body with its questions put to the real stores: a wallet goes ahead only if it
    is not frozen and its cooldown has passed, and otherwise the stores' answers decide.
   */
  method ConsiderStored(o: Orchestrator, verifier: V.Verifier, locks: L.Manager, snap: Snapshot, pool: seq<string>, w: Wallet,
                        now: int, freezeReadable: bool, cooldownReadable: bool, acquire: Answer)
    returns (v: Verdict, frozen: Answer, cooldown: Answer)
    requires o.Valid()
    modifies o.confirm
    ensures o.Valid()
    ensures (v, o.confirm.streak) ==
            Decide(o.cfg, o.sha, snap, pool, w, old(o.confirm.streak), Replies(frozen, cooldown, acquire))
    ensures FrozenAnswer(verifier.store, w.id, frozen) && CooldownAnswer(locks.cooldown, w.id, now, cooldown)
    ensures v.Triggered? ==>
              freezeReadable && cooldownReadable && w.id !in verifier.store.frozen && L.Eligible(locks.cooldown, w.id, now)
  {
    frozen := verifier.IsFrozen(w.id, freezeReadable);
    cooldown := locks.CooldownOK(w.id, now, cooldownReadable);
    v := o.Consider(snap, pool, w, Replies(frozen, cooldown, acquire));
  }
}

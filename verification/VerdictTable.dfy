/**
  What a scan decides, read off the inputs alone: the trigger, the verdict and the streak of
  a wallet by how many of its old members are ready, and the counters of a whole scan.
 */
module VerdictTable {
  import opened Types
  import opened Ordering
  import opened Committee
  import T = Trigger
  import opened Reconciler

  /** Old positions whose member is whitelisted and ready, and those that are whitelisted. */
  ghost function ReadyCount(prev: seq<string>, snap: Snapshot): nat {
    |set i | 0 <= i < |prev| && prev[i] in snap.whitelist && prev[i] in snap.ready|
  }

  ghost function ReachableCount(prev: seq<string>, snap: Snapshot): nat {
    |set i | 0 <= i < |prev| && prev[i] in snap.whitelist|
  }

  /** A healthy committee, all ready, larger than the size the policy would choose. */
  ghost predicate Oversized(cfg: Config, prev: seq<string>, snap: Snapshot, size: int) {
    cfg.migrateOversized && ReachableCount(prev, snap) > size && ReadyCount(prev, snap) == ReachableCount(prev, snap)
  }

  /** The trigger by the number of ready old members, the tier's spare and the target size. */
  lemma TriggerTable(cfg: Config, snap: Snapshot, pool: seq<string>, prev: seq<string>) returns (t: Tier, size: int)
    requires ValidPolicy(cfg.policy)
    ensures SizeFor(cfg.policy, |pool|, size, t)
    ensures var trig, n, quorum := TriggerFor(cfg, snap, pool, prev), ReadyCount(prev, snap), cfg.policy.threshold + 1;
            && (trig.Unrecoverable? <==> n == 0)
            && (trig.Urgent? <==> 1 <= n < quorum)
            && (trig.Proactive? <==> quorum <= n < quorum + t.spare)
            && (trig.Migration? <==> n >= quorum + t.spare && Oversized(cfg, prev, snap, size))
            && (trig.None? <==> n >= quorum + t.spare && !Oversized(cfg, prev, snap, size))
  {
    t, size := TierFor(cfg.policy, |pool|), TargetSize(cfg.policy, |pool|);
    TargetSizeBounds(cfg.policy, |pool|);
    ReadyOldCount(prev, snap);
  }

  /** The wallet's streak before a scan. */
  function StreakOf(streak: map<string, nat>, w: string): nat {
    if w in streak then streak[w] else 0
  }

  /** n ready old members call for a patient reshare. */
  ghost predicate WantsReshare(cfg: Config, prev: seq<string>, snap: Snapshot, t: Tier, size: int) {
    var n, quorum := ReadyCount(prev, snap), cfg.policy.threshold + 1;
    n >= quorum && (n < quorum + t.spare || Oversized(cfg, prev, snap, size))
  }

  /**
    The verdict on a wallet: skipped without a committee, lost with no ready member, healthy
    with the quorum and its spare, published if it wants a reshare, is confirmed and every
    reply is clean, and deferred otherwise; among the deferred are all with some ready
    members but no quorum.
   */
  lemma VerdictCases(cfg: Config, sha: string -> string, snap: Snapshot, pool: seq<string>, w: Wallet,
                     streak: map<string, nat>, replies: Replies) returns (t: Tier, size: int)
    requires ValidPolicy(cfg.policy) && IsPool(snap, pool)
    ensures SizeFor(cfg.policy, |pool|, size, t)
    ensures var v, prev := Decide(cfg, sha, snap, pool, w, streak, replies).0, OldCommittee(w);
            var n := ReadyCount(prev, snap);
            && (v.Skipped? <==> prev == [])
            && (v.Lost? <==> prev != [] && replies.frozen == No && n == 0)
            && (v.Healthy? <==> prev != [] && replies.frozen == No && n >= cfg.policy.threshold + 1 + t.spare
                                && !Oversized(cfg, prev, snap, size))
            && (v.Triggered? <==> prev != [] && replies == Replies(No, Yes, Yes) && w.id != ""
                                  && |pool| >= cfg.policy.threshold + 1 && WantsReshare(cfg, prev, snap, t, size)
                                  && StreakOf(streak, w.id) + 1 >= cfg.need)
  {
    t, size := TriggerTable(cfg, snap, pool, OldCommittee(w));
    PublishesIff(cfg, sha, snap, pool, w, streak, replies);
  }

  /** A published wallet gets the plan selected for its id from its old committee and the pool. */
  lemma PublishedPlan(cfg: Config, sha: string -> string, snap: Snapshot, pool: seq<string>, w: Wallet,
                      streak: map<string, nat>, replies: Replies)
    requires cfg.policy.tiers != [] && Decide(cfg, sha, snap, pool, w, streak, replies).0.Triggered?
    ensures var v := Decide(cfg, sha, snap, pool, w, streak, replies).0;
            && Select(sha, cfg.policy, w.id, OldCommittee(w), pool) == Ok(v.plan)
            && v.trig == TriggerFor(cfg, snap, pool, OldCommittee(w))
  {
  }

  /** One observation, entry by entry. */
  lemma ObservedCases(need: T.Need, streak: map<string, nat>, w: string, trig: T.Trigger)
    ensures T.Observed(need, streak, w, trig).0 - {w} == streak - {w}
    ensures if (trig.Proactive? || trig.Migration?) && StreakOf(streak, w) + 1 < need
            then w in T.Observed(need, streak, w, trig).0 && T.Observed(need, streak, w, trig).0[w] == StreakOf(streak, w) + 1
            else w !in T.Observed(need, streak, w, trig).0
  {
  }

  lemma DecidedStreak(cfg: Config, sha: string -> string, snap: Snapshot, pool: seq<string>, w: Wallet,
                      streak: map<string, nat>, replies: Replies)
    requires cfg.policy.tiers != []
    ensures var trig := TriggerFor(cfg, snap, pool, OldCommittee(w));
            Decide(cfg, sha, snap, pool, w, streak, replies).1 ==
            if OldCommittee(w) == [] || replies.frozen != No || trig.Unrecoverable? then streak
            else T.Observed(cfg.need, streak, w.id, trig).0
  {
  }

  /**
    The streaks after a wallet's turn: untouched if it has no committee, is or may be frozen,
    or is lost; otherwise its own streak grows by one below `need` while it wants a reshare,
    and is gone in every other case.  Other wallets keep theirs.
   */
  lemma StreakCases(cfg: Config, sha: string -> string, snap: Snapshot, pool: seq<string>, w: Wallet,
                    streak: map<string, nat>, replies: Replies) returns (t: Tier, size: int)
    requires ValidPolicy(cfg.policy)
    ensures SizeFor(cfg.policy, |pool|, size, t)
    ensures var after, prev, n := Decide(cfg, sha, snap, pool, w, streak, replies).1, OldCommittee(w), StreakOf(streak, w.id) + 1;
            && after - {w.id} == streak - {w.id}
            && (if prev == [] || replies.frozen != No || ReadyCount(prev, snap) == 0 then after == streak
                else if WantsReshare(cfg, prev, snap, t, size) && n < cfg.need then w.id in after && after[w.id] == n
                else w.id !in after)
  {
    t, size := TriggerTable(cfg, snap, pool, OldCommittee(w));
    DecidedStreak(cfg, sha, snap, pool, w, streak, replies);
    ObservedCases(cfg.need, streak, w.id, TriggerFor(cfg, snap, pool, OldCommittee(w)));
  }

  lemma TraceOf(decide: Decider, start: map<string, nat>, vs: seq<Verdict>, after: map<string, nat>)
    returns (streaks: seq<map<string, nat>>)
    requires Scanned(decide, start, vs, after)
    ensures |streaks| == |vs| + 1 && streaks[0] == start && streaks[|vs|] == after
    ensures forall i :: 0 <= i < |vs| ==> (vs[i], streaks[i + 1]) == decide(i, streaks[i])
  {
    streaks := seq(|vs| + 1, i requires 0 <= i => StreakAt(decide, start, i));
    forall i | 0 <= i < |vs| ensures (vs[i], streaks[i + 1]) == decide(i, streaks[i]) {
      assert vs[i] == VerdictAt(decide, start, i);
      assert streaks[i + 1] == StreakAt(decide, start, i + 1);
    }
  }

  lemma DeciderAt(cfg: Config, sha: string -> string, snap: Snapshot, pool: seq<string>, wallets: seq<Wallet>,
                  turns: seq<Turn>, i: nat, streak: map<string, nat>)
    requires cfg.policy.tiers != [] && i < |wallets| == |turns|
    ensures DeciderFor(cfg, sha, snap, pool, wallets, turns)(i, streak) ==
            Decide(cfg, sha, snap, pool, wallets[i], streak, turns[i].replies)
  {
  }

  /** A scan is one decision per wallet, in inventory order, each on the streaks the one before left. */
  lemma ScanTrace(cfg: Config, sha: string -> string, snap: Snapshot, pool: seq<string>, wallets: seq<Wallet>, turns: seq<Turn>,
                  start: map<string, nat>, vs: seq<Verdict>, after: map<string, nat>) returns (streaks: seq<map<string, nat>>)
    requires cfg.policy.tiers != [] && |vs| <= |wallets| == |turns|
    requires Scanned(DeciderFor(cfg, sha, snap, pool, wallets, turns), start, vs, after)
    ensures |streaks| == |vs| + 1 && streaks[0] == start && streaks[|vs|] == after
    ensures forall i :: 0 <= i < |vs| ==>
              (vs[i], streaks[i + 1]) == Decide(cfg, sha, snap, pool, wallets[i], streaks[i], turns[i].replies)
  {
    streaks := TraceOf(DeciderFor(cfg, sha, snap, pool, wallets, turns), start, vs, after);
    forall i | 0 <= i < |vs|
      ensures (vs[i], streaks[i + 1]) == Decide(cfg, sha, snap, pool, wallets[i], streaks[i], turns[i].replies)
    {
      DeciderAt(cfg, sha, snap, pool, wallets, turns, i, streaks[i]);
    }
  }
}

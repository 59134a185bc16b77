/**
  One reconcile scan (pkg/orchestrator/reconciler.go and the liveness helpers of
  types.go): per-wallet decision, counters, and the gauge of in-flight runs.
  Answers of Consul and the points at which runs finish are parameters.
 */
module Reconciler {
  import opened Types
  import opened Ordering
  import opened Committee
  import opened Trigger

  /** The three liveness maps hold only true entries and no empty id, so they are sets. */
  datatype RawSnapshot = Snapshot(ready: set<string>, whitelist: set<string>, pingActive: set<string>)

  type Snapshot = s: RawSnapshot | "" !in s.ready witness Snapshot({}, {}, {})

  // ----- liveness helpers -----

  ghost predicate IsPool(snap: Snapshot, pool: seq<string>) {
    StrictlySorted(pool, StringLe) && Elems(pool) == snap.ready * snap.whitelist * snap.pingActive
  }

  /** Candidates, collected in arbitrary order and sorted. */
  method CandidatePool(snap: Snapshot) returns (pool: seq<string>)
    ensures IsPool(snap, pool)
  {
    pool := [];
    var todo := snap.ready;
    while todo != {}
      invariant todo <= snap.ready && NoRepeats(pool)
      invariant Elems(pool) == (snap.ready - todo) * snap.whitelist * snap.pingActive
    {
      var id :| id in todo;
      todo := todo - {id};
      if id in snap.pingActive && id in snap.whitelist {
        assert Elems(pool + [id]) == Elems(pool) + {id};
        pool := pool + [id];
      }
    }
    StringOrder();
    SortByStrict(pool, StringLe);
    pool := SortBy(pool, StringLe);
  }

  /** Members of `s` that are in `keep`, in order. */
  function Restrict(s: seq<string>, keep: set<string>): seq<string> {
    if s == [] then []
    else
      var n := |s| - 1;
      Restrict(s[..n], keep) + if s[n] in keep then [s[n]] else []
  }

  lemma {:induction false} RestrictElems(s: seq<string>, keep: set<string>)
    ensures |Restrict(s, keep)| <= |s|
    ensures forall x :: x in Restrict(s, keep) <==> x in s && x in keep
  {
    if s != [] {
      var n := |s| - 1;
      RestrictElems(s[..n], keep);
      assert s == s[..n] + [s[n]];
    }
  }

  lemma {:induction false} RestrictNoRepeats(s: seq<string>, keep: set<string>)
    requires NoRepeats(s)
    ensures NoRepeats(Restrict(s, keep))
  {
    if s != [] {
      RestrictNoRepeats(s[..|s| - 1], keep);
      RestrictElems(s[..|s| - 1], keep);
      assert s[|s| - 1] !in s[..|s| - 1];
    }
  }

  lemma {:induction false} RestrictAll(s: seq<string>, keep: set<string>)
    requires forall x :: x in s ==> x in keep
    ensures Restrict(s, keep) == s
  {
    if s != [] {
      var n := |s| - 1;
      forall x | x in s[..n] ensures x in keep {
        assert x in s;
      }
      RestrictAll(s[..n], keep);
      assert s[n] in s;
      assert s == s[..n] + [s[n]];
    }
  }

  lemma {:induction false} RestrictNone(s: seq<string>)
    ensures Restrict(s, {}) == []
  {
    if s != [] {
      RestrictNone(s[..|s| - 1]);
    }
  }

  /** The positions whose member is in `keep`. */
  ghost function Positions(s: seq<string>, keep: set<string>): set<int> {
    set i | 0 <= i < |s| && s[i] in keep
  }

  lemma {:induction false} RestrictCount(s: seq<string>, keep: set<string>)
    ensures |Restrict(s, keep)| == |Positions(s, keep)|
  {
    if s != [] {
      var n := |s| - 1;
      RestrictCount(s[..n], keep);
      assert Positions(s, keep) == Positions(s[..n], keep) + if s[n] in keep then {n} else {};
    }
  }

  lemma RestrictNext(a: seq<string>, x: string, keep: set<string>)
    ensures Restrict(a + [x], keep) == Restrict(a, keep) + if x in keep then [x] else []
  {
    assert (a + [x])[..|a|] == a;
  }

  /** Restriction goes member by member, in order. */
  lemma {:induction false} RestrictConcat(a: seq<string>, b: seq<string>, keep: set<string>)
    ensures Restrict(a + b, keep) == Restrict(a, keep) + Restrict(b, keep)
  {
    if b == [] {
      assert a + b == a;
    } else {
      var c, x := b[..|b| - 1], b[|b| - 1];
      RestrictConcat(a, c, keep);
      RestrictNext(a + c, x, keep);
      RestrictNext(c, x, keep);
      assert c + [x] == b && a + c + [x] == a + b;
    }
  }

  lemma {:induction false} RestrictTwice(s: seq<string>, keep: set<string>, also: set<string>)
    ensures Restrict(Restrict(s, keep), also) == Restrict(s, keep * also)
  {
    if s != [] {
      var n := |s| - 1;
      RestrictTwice(s[..n], keep, also);
      var front := Restrict(s[..n], keep);
      if s[n] in keep {
        RestrictNext(front, s[n], also);
      } else {
        assert Restrict(s, keep) == front;
      }
    }
  }

  method CountAlive(committee: seq<string>, alive: set<string>) returns (n: nat)
    ensures n == |Restrict(committee, alive)|
    ensures n == |set i | 0 <= i < |committee| && committee[i] in alive|
  {
    RestrictCount(committee, alive);
    assert Positions(committee, alive) == set i | 0 <= i < |committee| && committee[i] in alive;
    n := 0;
    for i := 0 to |committee|
      invariant n == |Restrict(committee[..i], alive)|
    {
      assert committee[..i + 1][..i] == committee[..i];
      if committee[i] in alive {
        n := n + 1;
      }
    }
    assert committee[..|committee|] == committee;
  }

  method ReachableCommittee(committee: seq<string>, whitelist: set<string>) returns (out: seq<string>)
    ensures out == Restrict(committee, whitelist)
  {
    out := [];
    if |committee| == 0 || |whitelist| == 0 {
      RestrictNone(committee);
      return;
    }
    for i := 0 to |committee|
      invariant out == Restrict(committee[..i], whitelist)
    {
      assert committee[..i + 1][..i] == committee[..i];
      if committee[i] in whitelist {
        out := out + [committee[i]];
      }
    }
    assert committee[..|committee|] == committee;
  }

  /** Ready old members still on the whitelist, with repeats. */
  function ReadyOld(prev: seq<string>, snap: Snapshot): seq<string> {
    Restrict(Restrict(prev, snap.whitelist), snap.ready)
  }

  /** ... that is, the positions of such members. */
  lemma ReadyOldCount(prev: seq<string>, snap: Snapshot)
    ensures |ReadyOld(prev, snap)| == |set i | 0 <= i < |prev| && prev[i] in snap.whitelist && prev[i] in snap.ready|
    ensures |Restrict(prev, snap.whitelist)| == |set i | 0 <= i < |prev| && prev[i] in snap.whitelist|
  {
    RestrictTwice(prev, snap.whitelist, snap.ready);
    RestrictCount(prev, snap.whitelist * snap.ready);
    RestrictCount(prev, snap.whitelist);
    assert Positions(prev, snap.whitelist * snap.ready) ==
           set i | 0 <= i < |prev| && prev[i] in snap.whitelist && prev[i] in snap.ready;
    assert Positions(prev, snap.whitelist) == set i | 0 <= i < |prev| && prev[i] in snap.whitelist;
  }

  predicate Preflight(prev: seq<string>, next: seq<string>, snap: Snapshot, threshold: int) {
    && Restrict(prev, snap.whitelist) != []
    && |ReadyOld(prev, snap)| >= threshold + 1
    && forall id :: id in next ==> id in snap.ready
  }

  method PreflightReady(prev: seq<string>, next: seq<string>, snap: Snapshot, threshold: int) returns (ok: bool)
    ensures ok == Preflight(prev, next, snap, threshold)
    ensures ok <==>
            && (exists id :: id in prev && id in snap.whitelist)
            && |set i | 0 <= i < |prev| && prev[i] in snap.whitelist && prev[i] in snap.ready| >= threshold + 1
            && (forall id :: id in next ==> id in snap.ready)
  {
    ReadyOldCount(prev, snap);
    RestrictElems(prev, snap.whitelist);
    assert Restrict(prev, snap.whitelist) != [] ==> Restrict(prev, snap.whitelist)[0] in Restrict(prev, snap.whitelist);
    var reachable := ReachableCommittee(prev, snap.whitelist);
    if |reachable| == 0 { return false; }
    var alive := CountAlive(reachable, snap.ready);
    if alive < threshold + 1 { return false; }
    for i := 0 to |next|
      invariant forall j :: 0 <= j < i ==> next[j] in snap.ready
    {
      if next[i] !in snap.ready { return false; }
    }
    return true;
  }

  // ----- the decision for one wallet -----

  datatype Config = Config(policy: Policy, migrateOversized: bool, maxInflight: int, need: Need)

  /** Answers to the freeze check, the cooldown check and the lock request. */
  datatype Replies = Replies(frozen: Answer, cooldown: Answer, acquire: Answer)

  datatype Verdict = Skipped | Healthy | Deferred | Lost | Triggered(trig: Trigger, plan: Plan)

  function TriggerFor(cfg: Config, snap: Snapshot, pool: seq<string>, prev: seq<string>): Trigger
    requires cfg.policy.tiers != []
  {
    var reachable, aReady := Restrict(prev, snap.whitelist), |ReadyOld(prev, snap)|;
    var trig := DecideTrigger(cfg.policy.threshold, TierFor(cfg.policy, |pool|).spare, aReady);
    if trig.None? && cfg.migrateOversized && |reachable| > TargetSize(cfg.policy, |pool|) && aReady == |reachable|
    then Migration else trig
  }

  ghost function Decide(cfg: Config, sha: string -> string, snap: Snapshot, pool: seq<string>, w: Wallet,
                        streak: map<string, nat>, replies: Replies): (Verdict, map<string, nat>)
    requires cfg.policy.tiers != []
  {
    var prev := OldCommittee(w);
    if prev == [] then (Skipped, streak)
    else if !replies.frozen.No? then (Deferred, streak)
    else
      var trig := TriggerFor(cfg, snap, pool, prev);
      if trig.Unrecoverable? then (Lost, streak)
      else
        var (after, act) := Observed(cfg.need, streak, w.id, trig);
        if !act then (if trig.None? then Healthy else Deferred, after)
        else if !replies.cooldown.Yes? then (Deferred, after)
        else
          var r := Select(sha, cfg.policy, w.id, prev, pool);
          if r.Err? || !Preflight(prev, r.value.nodeIDs, snap, cfg.policy.threshold) || !replies.acquire.Yes?
          then (Deferred, after)
          else (Triggered(trig, r.value), after)
  }

  /** Every member of a plan drawn from the pool is ready, whitelisted and ping-active. */
  lemma PlanMembersAlive(cfg: Config, sha: string -> string, snap: Snapshot, pool: seq<string>, w: string, prev: seq<string>)
    requires IsPool(snap, pool) && Select(sha, cfg.policy, w, prev, pool).Ok?
    ensures var plan := Select(sha, cfg.policy, w, prev, pool).value;
            && (forall id :: id in plan.nodeIDs ==> id in snap.ready && id in snap.whitelist && id in snap.pingActive)
            && NoRepeats(plan.nodeIDs)
            && |plan.nodeIDs| == TargetSize(cfg.policy, |pool|) >= cfg.policy.threshold + 1
  {
    SelectSucceedsIff(sha, cfg.policy, w, prev, pool);
    assert Elems(pool) - {""} == Elems(pool);
    NoRepeatsCardinality(pool);
    var plan := Select(sha, cfg.policy, w, prev, pool).value;
    assert forall id :: id in plan.nodeIDs ==> id in Elems(plan.nodeIDs);
  }

  /** On a plan drawn from the pool, preflight fails exactly when the old quorum is short. */
  lemma PreflightIff(cfg: Config, sha: string -> string, snap: Snapshot, pool: seq<string>, w: string, prev: seq<string>)
    requires ValidPolicy(cfg.policy) && IsPool(snap, pool) && Select(sha, cfg.policy, w, prev, pool).Ok?
    ensures Preflight(prev, Select(sha, cfg.policy, w, prev, pool).value.nodeIDs, snap, cfg.policy.threshold) <==>
            |ReadyOld(prev, snap)| >= cfg.policy.threshold + 1
  {
    PlanMembersAlive(cfg, sha, snap, pool, w, prev);
  }

  /** With no repeats in the committee the count is a number of members. */
  lemma ReadyOldMembers(prev: seq<string>, snap: Snapshot)
    requires NoRepeats(prev)
    ensures |ReadyOld(prev, snap)| == |Elems(prev) * snap.whitelist * snap.ready|
  {
    RestrictNoRepeats(prev, snap.whitelist);
    RestrictNoRepeats(Restrict(prev, snap.whitelist), snap.ready);
    RestrictElems(prev, snap.whitelist);
    RestrictElems(Restrict(prev, snap.whitelist), snap.ready);
    NoRepeatsCardinality(ReadyOld(prev, snap));
    assert Elems(ReadyOld(prev, snap)) == Elems(prev) * snap.whitelist * snap.ready;
  }

  /** What makes publishing a plan for a wallet safe on a snapshot. */
  ghost predicate SafePlan(cfg: Config, snap: Snapshot, pool: seq<string>, w: Wallet, trig: Trigger, plan: Plan)
    requires cfg.policy.tiers != []
  {
    && |ReadyOld(OldCommittee(w), snap)| >= cfg.policy.threshold + 1
    && (NoRepeats(OldCommittee(w)) ==>
          |Elems(OldCommittee(w)) * snap.whitelist * snap.ready| >= cfg.policy.threshold + 1)
    && (forall id :: id in plan.nodeIDs ==> id in snap.ready && id in snap.whitelist && id in snap.pingActive)
    && |plan.nodeIDs| == TargetSize(cfg.policy, |pool|) >= cfg.policy.threshold + 1
    && trig.Patient()
    && trig == TriggerFor(cfg, snap, pool, OldCommittee(w))
  }

  /**
    Scan safety: a published reshare has t+1 ready whitelisted old members, a plan whose
    members are ready, whitelisted and ping-active, and a trigger that is not Urgent.
   */
  lemma ScanSafety(cfg: Config, sha: string -> string, snap: Snapshot, pool: seq<string>, w: Wallet,
                   streak: map<string, nat>, replies: Replies)
    requires ValidPolicy(cfg.policy) && IsPool(snap, pool)
    requires Decide(cfg, sha, snap, pool, w, streak, replies).0.Triggered?
    ensures var v := Decide(cfg, sha, snap, pool, w, streak, replies).0;
            replies == Replies(No, Yes, Yes) && SafePlan(cfg, snap, pool, w, v.trig, v.plan)
  {
    PlanMembersAlive(cfg, sha, snap, pool, w.id, OldCommittee(w));
    if NoRepeats(OldCommittee(w)) {
      ReadyOldMembers(OldCommittee(w), snap);
    }
  }

  /** The wallet has a committee and a confirmed patient trigger, and the pool a quorum. */
  predicate Confirmed(cfg: Config, snap: Snapshot, pool: seq<string>, w: Wallet, streak: map<string, nat>)
    requires cfg.policy.tiers != []
  {
    var trig := TriggerFor(cfg, snap, pool, OldCommittee(w));
    && OldCommittee(w) != [] && w.id != "" && |pool| >= cfg.policy.threshold + 1
    && trig.Patient() && Observed(cfg.need, streak, w.id, trig).1
  }

  /** On a confirmed wallet selection succeeds and preflight holds. */
  lemma ConfirmedPlan(cfg: Config, sha: string -> string, snap: Snapshot, pool: seq<string>, w: Wallet, streak: map<string, nat>)
    requires ValidPolicy(cfg.policy) && IsPool(snap, pool) && Confirmed(cfg, snap, pool, w, streak)
    ensures var r := Select(sha, cfg.policy, w.id, OldCommittee(w), pool);
            r.Ok? && Preflight(OldCommittee(w), r.value.nodeIDs, snap, cfg.policy.threshold)
  {
    SelectSucceedsIff(sha, cfg.policy, w.id, OldCommittee(w), pool);
    assert Elems(pool) - {""} == Elems(pool);
    NoRepeatsCardinality(pool);
    PreflightIff(cfg, sha, snap, pool, w.id, OldCommittee(w));
  }

  lemma PublishedConfirmed(cfg: Config, sha: string -> string, snap: Snapshot, pool: seq<string>, w: Wallet,
                           streak: map<string, nat>, replies: Replies)
    requires ValidPolicy(cfg.policy) && IsPool(snap, pool)
    requires Decide(cfg, sha, snap, pool, w, streak, replies).0.Triggered?
    ensures Confirmed(cfg, snap, pool, w, streak) && replies == Replies(No, Yes, Yes)
  {
    ScanSafety(cfg, sha, snap, pool, w, streak, replies);
    PoolHasQuorum(cfg.policy, sha, snap, pool, w.id, OldCommittee(w));
  }

  lemma PoolHasQuorum(p: Policy, sha: string -> string, snap: Snapshot, pool: seq<string>, w: string, prev: seq<string>)
    requires IsPool(snap, pool) && Select(sha, p, w, prev, pool).Ok?
    ensures w != "" && |pool| >= p.threshold + 1
  {
    SelectSucceedsIff(sha, p, w, prev, pool);
    assert Elems(pool) - {""} == Elems(pool);
    NoRepeatsCardinality(pool);
  }

  lemma ConfirmedPublished(cfg: Config, sha: string -> string, snap: Snapshot, pool: seq<string>, w: Wallet,
                           streak: map<string, nat>)
    requires ValidPolicy(cfg.policy) && IsPool(snap, pool) && Confirmed(cfg, snap, pool, w, streak)
    ensures Decide(cfg, sha, snap, pool, w, streak, Replies(No, Yes, Yes)).0.Triggered?
  {
    ConfirmedPlan(cfg, sha, snap, pool, w, streak);
  }

  /** A wallet is published exactly when it is confirmed and every reply is clean. */
  lemma PublishesIff(cfg: Config, sha: string -> string, snap: Snapshot, pool: seq<string>, w: Wallet,
                     streak: map<string, nat>, replies: Replies)
    requires ValidPolicy(cfg.policy) && IsPool(snap, pool)
    ensures Decide(cfg, sha, snap, pool, w, streak, replies).0.Triggered? <==>
            Confirmed(cfg, snap, pool, w, streak) && replies == Replies(No, Yes, Yes)
  {
    if Decide(cfg, sha, snap, pool, w, streak, replies).0.Triggered? {
      PublishedConfirmed(cfg, sha, snap, pool, w, streak, replies);
    } else if Confirmed(cfg, snap, pool, w, streak) && replies == Replies(No, Yes, Yes) {
      ConfirmedPublished(cfg, sha, snap, pool, w, streak);
    }
  }

  /** An Urgent wallet is deferred whatever Consul answers: too few old members are left to reshare. */
  lemma UrgentDeferred(cfg: Config, sha: string -> string, snap: Snapshot, pool: seq<string>, w: Wallet,
                       streak: map<string, nat>, replies: Replies)
    requires ValidPolicy(cfg.policy) && IsPool(snap, pool)
    requires OldCommittee(w) != [] && TriggerFor(cfg, snap, pool, OldCommittee(w)).Urgent?
    ensures Decide(cfg, sha, snap, pool, w, streak, replies).0 == Deferred
  {
    if Decide(cfg, sha, snap, pool, w, streak, replies).0.Triggered? {
      ScanSafety(cfg, sha, snap, pool, w, streak, replies);
    }
  }

  // ----- settling -----

  /**
    Once the plan is the committee, the same snapshot asks for nothing more exactly when
    the target size covers the quorum plus the tier's spare.
   */
  lemma SettlesIff(cfg: Config, sha: string -> string, snap: Snapshot, pool: seq<string>, w: string, prev: seq<string>)
    requires ValidPolicy(cfg.policy) && IsPool(snap, pool) && Select(sha, cfg.policy, w, prev, pool).Ok?
    ensures var plan := Select(sha, cfg.policy, w, prev, pool).value;
            && (TriggerFor(cfg, snap, pool, plan.nodeIDs).None? <==>
                TargetSize(cfg.policy, |pool|) >= cfg.policy.threshold + 1 + TierFor(cfg.policy, |pool|).spare)
            && TriggerFor(cfg, snap, pool, plan.nodeIDs) in {Trigger.None, Trigger.Proactive}
  {
    var plan := Select(sha, cfg.policy, w, prev, pool).value;
    PlanMembersAlive(cfg, sha, snap, pool, w, prev);
    RestrictAll(plan.nodeIDs, snap.whitelist);
    RestrictAll(plan.nodeIDs, snap.ready);
  }

  /** The default policy settles on every snapshot where selection succeeds. */
  lemma DefaultPolicySettles(cfg: Config, sha: string -> string, snap: Snapshot, pool: seq<string>, w: string, prev: seq<string>)
    requires cfg.policy == DefaultPolicy() && IsPool(snap, pool) && Select(sha, cfg.policy, w, prev, pool).Ok?
    ensures TriggerFor(cfg, snap, pool, Select(sha, cfg.policy, w, prev, pool).value.nodeIDs).None?
  {
    DefaultPoolSize(sha, snap, pool, w, prev);
    DefaultPolicyTable(|pool|);
    SettlesIff(cfg, sha, snap, pool, w, prev);
  }

  lemma DefaultPoolSize(sha: string -> string, snap: Snapshot, pool: seq<string>, w: string, prev: seq<string>)
    requires IsPool(snap, pool) && Select(sha, DefaultPolicy(), w, prev, pool).Ok?
    ensures |pool| >= 3 && ValidPolicy(DefaultPolicy()) && DefaultPolicy().threshold == 2
  {
    SelectSucceedsIff(sha, DefaultPolicy(), w, prev, pool);
    assert Elems(pool) - {""} == Elems(pool);
    NoRepeatsCardinality(pool);
  }

  /** A migration strictly shrinks the committee. */
  lemma MigrationShrinks(cfg: Config, sha: string -> string, snap: Snapshot, pool: seq<string>, w: Wallet,
                         streak: map<string, nat>, replies: Replies)
    requires ValidPolicy(cfg.policy) && IsPool(snap, pool)
    requires var v := Decide(cfg, sha, snap, pool, w, streak, replies).0; v.Triggered? && v.trig.Migration?
    ensures |Decide(cfg, sha, snap, pool, w, streak, replies).0.plan.nodeIDs| < |OldCommittee(w)|
  {
    ScanSafety(cfg, sha, snap, pool, w, streak, replies);
    RestrictElems(OldCommittee(w), snap.whitelist);
  }

  // ----- a whole scan -----

  datatype Report = Report(scanned: nat, healthy: nat, deferred: nat, triggered: nat, unrecoverable: nat)

  function Counted(r: Report, v: Verdict): Report {
    match v
    case Skipped => r
    case Healthy => r.(scanned := r.scanned + 1, healthy := r.healthy + 1)
    case Deferred => r.(scanned := r.scanned + 1, deferred := r.deferred + 1)
    case Lost => r.(scanned := r.scanned + 1, unrecoverable := r.unrecoverable + 1)
    case Triggered(_, _) => r.(scanned := r.scanned + 1, triggered := r.triggered + 1)
  }

  /** How many verdicts are of a kind. */
  ghost function CountOf(vs: seq<Verdict>, kind: Verdict -> bool): nat {
    |set i | 0 <= i < |vs| && kind(vs[i])|
  }

  /** Each counter is the number of verdicts of its kind; skipped wallets are not scanned. */
  ghost predicate Tallied(r: Report, vs: seq<Verdict>) {
    && r.scanned == CountOf(vs, (v: Verdict) => !v.Skipped?)
    && r.healthy == CountOf(vs, (v: Verdict) => v.Healthy?)
    && r.deferred == CountOf(vs, (v: Verdict) => v.Deferred?)
    && r.triggered == CountOf(vs, (v: Verdict) => v.Triggered?)
    && r.unrecoverable == CountOf(vs, (v: Verdict) => v.Lost?)
  }

  lemma CountNone(kind: Verdict -> bool)
    ensures CountOf([], kind) == 0
  {
    var vs: seq<Verdict> := [];
    assert (set i | 0 <= i < |vs| && kind(vs[i])) == {};
  }

  lemma CountNext(vs: seq<Verdict>, v: Verdict, kind: Verdict -> bool)
    ensures CountOf(vs + [v], kind) == CountOf(vs, kind) + if kind(v) then 1 else 0
  {
    var n, all := |vs|, vs + [v];
    assert (set i | 0 <= i < |all| && kind(all[i])) == (set i | 0 <= i < n && kind(vs[i])) + if kind(v) then {n} else {};
  }

  lemma TalliedNone()
    ensures Tallied(Report(0, 0, 0, 0, 0), [])
  {
    CountNone((v: Verdict) => !v.Skipped?);
    CountNone((v: Verdict) => v.Healthy?);
    CountNone((v: Verdict) => v.Deferred?);
    CountNone((v: Verdict) => v.Triggered?);
    CountNone((v: Verdict) => v.Lost?);
  }

  lemma TalliedNext(r: Report, vs: seq<Verdict>, v: Verdict)
    requires Tallied(r, vs)
    ensures Tallied(Counted(r, v), vs + [v])
  {
    CountNext(vs, v, (v: Verdict) => !v.Skipped?);
    CountNext(vs, v, (v: Verdict) => v.Healthy?);
    CountNext(vs, v, (v: Verdict) => v.Deferred?);
    CountNext(vs, v, (v: Verdict) => v.Triggered?);
    CountNext(vs, v, (v: Verdict) => v.Lost?);
  }

  /** The kinds of verdict add up. */
  lemma {:induction false} KindsAddUp(vs: seq<Verdict>)
    ensures CountOf(vs, (v: Verdict) => !v.Skipped?) ==
            CountOf(vs, (v: Verdict) => v.Healthy?) + CountOf(vs, (v: Verdict) => v.Deferred?)
            + CountOf(vs, (v: Verdict) => v.Triggered?) + CountOf(vs, (v: Verdict) => v.Lost?)
  {
    if vs == [] {
      TalliedNone();
    } else {
      var before, v := vs[..|vs| - 1], vs[|vs| - 1];
      KindsAddUp(before);
      assert vs == before + [v];
      CountNext(before, v, (v: Verdict) => !v.Skipped?);
      CountNext(before, v, (v: Verdict) => v.Healthy?);
      CountNext(before, v, (v: Verdict) => v.Deferred?);
      CountNext(before, v, (v: Verdict) => v.Triggered?);
      CountNext(before, v, (v: Verdict) => v.Lost?);
    }
  }

  /** Every scanned wallet is counted once. */
  lemma TallyBalanced(r: Report, vs: seq<Verdict>)
    requires Tallied(r, vs)
    ensures r.scanned == r.healthy + r.deferred + r.triggered + r.unrecoverable
  {
    KindsAddUp(vs);
  }

  /** For each wallet: Consul's answers, and the runs that finish before and after the gauge is read. */
  datatype Turn = Turn(replies: Replies, before: set<nat>, during: set<nat>)

  /** The decision for the i-th wallet of a scan, given the streaks before it. */
  type Decider = (int, map<string, nat>) -> (Verdict, map<string, nat>)

  ghost function DeciderFor(cfg: Config, sha: string -> string, snap: Snapshot, pool: seq<string>,
                            wallets: seq<Wallet>, turns: seq<Turn>): Decider
    requires cfg.policy.tiers != [] && |wallets| == |turns|
  {
    (i, streak) =>
      if 0 <= i < |wallets| then Decide(cfg, sha, snap, pool, wallets[i], streak, turns[i].replies) else (Skipped, streak)
  }

  /** The streaks after the first n wallets. */
  ghost function StreakAt(decide: Decider, streak: map<string, nat>, n: nat): map<string, nat> {
    if n == 0 then streak else decide(n - 1, StreakAt(decide, streak, n - 1)).1
  }

  /** The verdict on the i-th wallet. */
  ghost function VerdictAt(decide: Decider, streak: map<string, nat>, i: nat): Verdict {
    decide(i, StreakAt(decide, streak, i)).0
  }

  /** Verdicts and streaks of a scan that got as far as `vs`. */
  ghost predicate Scanned(decide: Decider, streak: map<string, nat>, vs: seq<Verdict>, after: map<string, nat>) {
    && (forall i :: 0 <= i < |vs| ==> vs[i] == VerdictAt(decide, streak, i))
    && after == StreakAt(decide, streak, |vs|)
  }

  /** One more wallet. */
  lemma ScanNext(decide: Decider, streak: map<string, nat>, vs: seq<Verdict>, before: map<string, nat>,
                 v: Verdict, after: map<string, nat>)
    requires Scanned(decide, streak, vs, before) && (v, after) == decide(|vs|, before)
    ensures Scanned(decide, streak, vs + [v], after)
  {
  }

  /** A verdict that publishes does so on clean replies and with a safe plan. */
  ghost predicate SafeVerdict(cfg: Config, snap: Snapshot, pool: seq<string>, w: Wallet, replies: Replies, v: Verdict)
    requires cfg.policy.tiers != []
  {
    v.Triggered? ==> replies == Replies(No, Yes, Yes) && SafePlan(cfg, snap, pool, w, v.trig, v.plan)
  }

  lemma DecisionSafe(cfg: Config, sha: string -> string, snap: Snapshot, pool: seq<string>, w: Wallet,
                     streak: map<string, nat>, replies: Replies)
    requires ValidPolicy(cfg.policy) && IsPool(snap, pool)
    ensures SafeVerdict(cfg, snap, pool, w, replies, Decide(cfg, sha, snap, pool, w, streak, replies).0)
  {
    if Decide(cfg, sha, snap, pool, w, streak, replies).0.Triggered? {
      ScanSafety(cfg, sha, snap, pool, w, streak, replies);
    }
  }

  /** Scan safety for every wallet that a whole scan publishes. */
  lemma EveryVerdictSafe(cfg: Config, sha: string -> string, snap: Snapshot, pool: seq<string>, wallets: seq<Wallet>,
                         turns: seq<Turn>, streak: map<string, nat>, vs: seq<Verdict>, after: map<string, nat>)
    requires ValidPolicy(cfg.policy) && IsPool(snap, pool) && |vs| <= |wallets| == |turns|
    requires Scanned(DeciderFor(cfg, sha, snap, pool, wallets, turns), streak, vs, after)
    ensures forall i :: 0 <= i < |vs| ==> SafeVerdict(cfg, snap, pool, wallets[i], turns[i].replies, vs[i])
  {
    var decide := DeciderFor(cfg, sha, snap, pool, wallets, turns);
    forall i | 0 <= i < |vs| ensures SafeVerdict(cfg, snap, pool, wallets[i], turns[i].replies, vs[i]) {
      var before := StreakAt(decide, streak, i);
      assert vs[i] == VerdictAt(decide, streak, i) == decide(i, before).0;
      DecisionSafe(cfg, sha, snap, pool, wallets[i], before, turns[i].replies);
    }
  }

  class Orchestrator {
    const cfg: Config
    const sha: string -> string
    const confirm: ConfirmTracker
    var active: int
    var live: set<nat>
    var spawned: nat

    /** The gauge counts the live runs and never exceeds the configured maximum. */
    ghost predicate Valid()
      reads this, confirm
    {
      && ValidPolicy(cfg.policy)
      && confirm.Valid() && confirm.need == cfg.need
      && active == |live|
      && (live == {} || active <= cfg.maxInflight)
      && forall r :: r in live ==> r < spawned
    }

    constructor (cfg: Config, sha: string -> string, confirm: ConfirmTracker)
      requires ValidPolicy(cfg.policy) && confirm.Valid() && confirm.need == cfg.need
      ensures Valid() && this.cfg == cfg && this.sha == sha && this.confirm == confirm
      ensures live == {} && spawned == 0
    {
      this.cfg, this.sha, this.confirm := cfg, sha, confirm;
      active, live, spawned := 0, {}, 0;
    }

    /** Runs that end, at any moment, each taking itself off the gauge. */
    method Finish(done: set<nat>)
      requires Valid()
      modifies `active, `live
      ensures Valid() && live == old(live) - done && active <= old(active)
    {
      var ended := live * done;
      assert live == ended + (live - done);
      active := active - |ended|;
      live := live - done;
    }

    method Spawn()
      requires Valid() && active < cfg.maxInflight
      modifies `active, `live, `spawned
      ensures Valid() && live == old(live) + {old(spawned)} && spawned == old(spawned) + 1
    {
      active := active + 1;
      live := live + {spawned};
      spawned := spawned + 1;
    }

    method DecideTriggerFor(snap: Snapshot, pool: seq<string>, prev: seq<string>) returns (trig: Trigger)
      requires ValidPolicy(cfg.policy)
      ensures trig == TriggerFor(cfg, snap, pool, prev)
    {
      var reachable := ReachableCommittee(prev, snap.whitelist);
      var aReady := CountAlive(reachable, snap.ready);
      trig := DecideTrigger(cfg.policy.threshold, TierFor(cfg.policy, |pool|).spare, aReady);
      if trig.None? && cfg.migrateOversized {
        if |reachable| > TargetSize(cfg.policy, |pool|) && aReady == |reachable| {
          trig := Migration;
        }
      }
    }

    /** The body of the scan loop up to the lock request. */
    method Consider(snap: Snapshot, pool: seq<string>, w: Wallet, replies: Replies) returns (v: Verdict)
      requires Valid()
      modifies confirm
      ensures Valid() && (v, confirm.streak) == Decide(cfg, sha, snap, pool, w, old(confirm.streak), replies)
    {
      var prev := OldCommittee(w);
      if |prev| == 0 { return Skipped; }
      if !replies.frozen.No? { return Deferred; }
      var trig := DecideTriggerFor(snap, pool, prev);
      if trig.Unrecoverable? { return Lost; }
      var act := confirm.Observe(w.id, trig);
      if !act { return if trig.None? then Healthy else Deferred; }
      if !replies.cooldown.Yes? { return Deferred; }
      var plan := SelectCommittee(sha, cfg.policy, w.id, prev, pool);
      if plan.Err? { return Deferred; }
      var ready := PreflightReady(prev, plan.value.nodeIDs, snap, cfg.policy.threshold);
      if !ready || !replies.acquire.Yes? { return Deferred; }
      return Triggered(trig, plan.value);
    }

    /** One wallet's turn, with the runs that finish meanwhile. */
    method TakeTurn(snap: Snapshot, pool: seq<string>, w: Wallet, turn: Turn) returns (saturated: bool, v: Verdict)
      requires Valid()
      modifies this, confirm
      ensures Valid()
      ensures saturated ==> active >= cfg.maxInflight && confirm.streak == old(confirm.streak) && spawned == old(spawned)
      ensures !saturated ==>
                && (v, confirm.streak) == Decide(cfg, sha, snap, pool, w, old(confirm.streak), turn.replies)
                && spawned == old(spawned) + if v.Triggered? then 1 else 0
    {
      Finish(turn.before);
      if active >= cfg.maxInflight {
        return true, Skipped;
      }
      saturated := false;
      v := Consider(snap, pool, w, turn.replies);
      Finish(turn.during);
      if v.Triggered? {
        Spawn();
      }
    }

    /** The turn of the next wallet, as part of a scan. */
    method NextTurn(snap: Snapshot, pool: seq<string>, wallets: seq<Wallet>, turns: seq<Turn>,
                    ghost start: map<string, nat>, vs: seq<Verdict>)
      returns (saturated: bool, v: Verdict)
      requires Valid() && |vs| < |wallets| == |turns|
      requires Scanned(DeciderFor(cfg, sha, snap, pool, wallets, turns), start, vs, confirm.streak)
      modifies this, confirm
      ensures Valid()
      ensures saturated ==> active >= cfg.maxInflight && confirm.streak == old(confirm.streak) && spawned == old(spawned)
      ensures !saturated ==> Scanned(DeciderFor(cfg, sha, snap, pool, wallets, turns), start, vs + [v], confirm.streak)
      ensures !saturated ==> spawned == old(spawned) + if v.Triggered? then 1 else 0
    {
      ghost var before := confirm.streak;
      saturated, v := TakeTurn(snap, pool, wallets[|vs|], turns[|vs|]);
      if !saturated {
        ScanNext(DeciderFor(cfg, sha, snap, pool, wallets, turns), start, vs, before, v, confirm.streak);
      }
    }

    /** ... and its place in the report. */
    method CountTurn(snap: Snapshot, pool: seq<string>, wallets: seq<Wallet>, turns: seq<Turn>,
                     ghost start: map<string, nat>, vs: seq<Verdict>, report: Report)
      returns (saturated: bool, longer: seq<Verdict>, counted: Report)
      requires Valid() && |vs| < |wallets| == |turns|
      requires Scanned(DeciderFor(cfg, sha, snap, pool, wallets, turns), start, vs, confirm.streak)
      modifies this, confirm
      ensures Valid()
      ensures |longer| == if saturated then |vs| else |vs| + 1
      ensures Scanned(DeciderFor(cfg, sha, snap, pool, wallets, turns), start, longer, confirm.streak)
      ensures Tallied(report, vs) ==> Tallied(counted, longer)
      ensures spawned - counted.triggered == old(spawned) - report.triggered
      ensures saturated ==> active >= cfg.maxInflight
    {
      var v;
      saturated, v := NextTurn(snap, pool, wallets, turns, start, vs);
      if saturated {
        return saturated, vs, report;
      }
      longer, counted := vs + [v], Counted(report, v);
      if Tallied(report, vs) {
        TalliedNext(report, vs, v);
      }
    }

    method ScanLoop(snap: Snapshot, pool: seq<string>, wallets: seq<Wallet>, turns: seq<Turn>)
      returns (vs: seq<Verdict>, report: Report)
      requires Valid() && |turns| == |wallets|
      modifies this, confirm
      ensures Valid()
      ensures |vs| <= |wallets|
      ensures Scanned(DeciderFor(cfg, sha, snap, pool, wallets, turns), old(confirm.streak), vs, confirm.streak)
      ensures Tallied(report, vs) && spawned == old(spawned) + report.triggered
      ensures |vs| < |wallets| ==> active >= cfg.maxInflight
    {
      vs, report := [], Report(0, 0, 0, 0, 0);
      TalliedNone();
      ghost var start := confirm.streak;
      var saturated := false;
      while |vs| < |wallets| && !saturated
        invariant Valid() && |vs| <= |wallets|
        invariant Scanned(DeciderFor(cfg, sha, snap, pool, wallets, turns), start, vs, confirm.streak)
        invariant Tallied(report, vs) && spawned - report.triggered == old(spawned)
        invariant saturated ==> active >= cfg.maxInflight
        decreases |wallets| - |vs|, !saturated
      {
        saturated, vs, report := CountTurn(snap, pool, wallets, turns, start, vs, report);
      }
    }

    /**
      A scan, interleaved with finishing runs: it decides the wallets in order until the
      list ends or the gauge is full, and spawns one run per lock acquired.  Without an
      inventory or a snapshot it does nothing.
     */
    method ReconcileOnce(inventory: Option<seq<Wallet>>, liveness: Option<Snapshot>, turns: seq<Turn>)
      returns (pool: seq<string>, vs: seq<Verdict>, report: Report)
      requires Valid() && (inventory.Some? ==> |turns| == |inventory.value|)
      modifies this, confirm
      ensures Valid() && active == |live| && (live == {} || active <= cfg.maxInflight)
      ensures Tallied(report, vs) && spawned == old(spawned) + report.triggered
      ensures inventory.None? || liveness.None? ==>
                vs == [] && confirm.streak == old(confirm.streak) && live == old(live)
      ensures inventory.Some? && liveness.Some? ==>
                && IsPool(liveness.value, pool)
                && |vs| <= |inventory.value|
                && Scanned(DeciderFor(cfg, sha, liveness.value, pool, inventory.value, turns),
                           old(confirm.streak), vs, confirm.streak)
                && (|vs| < |inventory.value| ==> active >= cfg.maxInflight)
                && forall i :: 0 <= i < |vs| ==>
                     SafeVerdict(cfg, liveness.value, pool, inventory.value[i], turns[i].replies, vs[i])
    {
      pool, vs, report := [], [], Report(0, 0, 0, 0, 0);
      TalliedNone();
      if inventory.None? { return; }
      if liveness.None? { return; }
      ghost var start := confirm.streak;
      pool := CandidatePool(liveness.value);
      vs, report := ScanLoop(liveness.value, pool, inventory.value, turns);
      EveryVerdictSafe(cfg, sha, liveness.value, pool, inventory.value, turns, start, vs, confirm.streak);
    }
  }
}

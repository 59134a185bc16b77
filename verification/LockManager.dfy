/**
  The cooldown and sweep operations of the lock manager (pkg/orchestrator/lock.go) and
  the session-retry backoffs.  Durations are int64 nanoseconds, so doubling can wrap.
 */
module LockManager {
  import opened Types
  import opened Ordering

  const MAX_INT64: int := 0x7fff_ffff_ffff_ffff
  const SECOND: int := 1_000_000_000

  /** int64 wrap-around. */
  function Wrap64(x: int): int {
    (x + 0x8000_0000_0000_0000) % 0x1_0000_0000_0000_0000 - 0x8000_0000_0000_0000
  }

  function Pow2(n: nat): nat {
    if n == 0 then 1 else 2 * Pow2(n - 1)
  }

  function Min(a: int, b: int): int {
    if a <= b then a else b
  }

  // ----- failure backoff -----

  /** What `k` rounds of the doubling loop make of `backoff`. */
  function Doublings(backoff: int, max: int, k: nat): int
    decreases k
  {
    if k == 0 then backoff
    else if Wrap64(backoff * 2) >= max then max
    else Doublings(Wrap64(backoff * 2), max, k - 1)
  }

  method FailureBackoff(failure: int, max: int, failCount: int) returns (backoff: int)
    ensures backoff == Doublings(failure, max, if failCount >= 1 then failCount - 1 else 0)
  {
    backoff := failure;
    var i := 1;
    ghost var total := Doublings(failure, max, if failCount >= 1 then failCount - 1 else 0);
    while i < failCount
      invariant 1 <= i && (i <= failCount || failCount < 1)
      invariant total == Doublings(backoff, max, if i < failCount then failCount - i else 0)
    {
      backoff := Wrap64(backoff * 2);
      if backoff >= max {
        backoff := max;
        break;
      }
      i := i + 1;
    }
  }

  lemma WrapFits(x: int)
    requires 0 <= x <= MAX_INT64
    ensures Wrap64(x) == x
  {
  }

  lemma PositivePow2(k: nat)
    ensures Pow2(k) >= 1
  {
  }

  lemma DoubleOnce(b: int, k: nat)
    requires b > 0 && k > 0
    ensures b * Pow2(k) == b * 2 * Pow2(k - 1) >= b * 2
  {
    PositivePow2(k - 1);
  }

  /** The first doubling of b that reaches max. */
  function FirstReach(b: int, max: int): (r: int)
    requires b > 0
    ensures b * 2 <= r && max <= r
    ensures r == b * 2 || r < max * 2
    decreases max - b
  {
    if b * 2 >= max then b * 2 else FirstReach(b * 2, max)
  }

  /** Closed form of the backoff, with no overflow for any number of failures. */
  lemma {:induction false} BackoffClosedForm(failure: int, max: int, k: nat)
    requires 0 < failure <= max && FirstReach(failure, max) <= MAX_INT64
    ensures Doublings(failure, max, k) == Min(max, failure * Pow2(k))
    decreases k
  {
    if k > 0 {
      WrapFits(failure * 2);
      DoubleOnce(failure, k);
      if failure * 2 < max {
        BackoffClosedForm(failure * 2, max, k - 1);
      }
    }
  }

  /** Where the first reaching doubling overflows, the delay turns negative just there. */
  lemma {:induction false} BackoffOverflows(failure: int, max: int) returns (k: nat)
    requires 0 < failure <= max <= MAX_INT64 < FirstReach(failure, max)
    ensures failure * Pow2(k) == FirstReach(failure, max)
    ensures Doublings(failure, max, k) < 0 < Min(max, failure * Pow2(k))
    decreases max - failure
  {
    if failure * 2 >= max {
      k := 1;
      assert Wrap64(failure * 2) == failure * 2 - 0x1_0000_0000_0000_0000;
      assert Doublings(Wrap64(failure * 2), max, 0) == Wrap64(failure * 2);
      assert Pow2(1) == 2 * Pow2(0) == 2;
    } else {
      WrapFits(failure * 2);
      k := BackoffOverflows(failure * 2, max);
      assert Doublings(failure, max, k + 1) == Doublings(failure * 2, max, k);
      DoubleOnce(failure, k + 1);
      k := k + 1;
    }
  }

  /**
    Exactly when a configuration obeys the closed form for every number of failures: the
    first delay is within the maximum, and the first doubling that reaches the maximum fits
    in an int64.
   */
  lemma BackoffExact(failure: int, max: int)
    requires 0 < failure && max <= MAX_INT64
    ensures (forall k: nat :: Doublings(failure, max, k) == Min(max, failure * Pow2(k))) <==>
            failure <= max && FirstReach(failure, max) <= MAX_INT64
    ensures failure <= max <= MAX_INT64 / 2 ==> FirstReach(failure, max) <= MAX_INT64
  {
    if failure > max {
      assert Doublings(failure, max, 0) == failure && Pow2(0) == 1;
      assert Doublings(failure, max, 0) != Min(max, failure * Pow2(0));
    } else if FirstReach(failure, max) <= MAX_INT64 {
      forall k: nat ensures Doublings(failure, max, k) == Min(max, failure * Pow2(k)) {
        BackoffClosedForm(failure, max, k);
      }
    } else {
      var k := BackoffOverflows(failure, max);
      assert Doublings(failure, max, k) != Min(max, failure * Pow2(k));
    }
  }

  /**
    A first delay above the maximum, which the configuration admits (90 minutes against the
    default maximum of 60, say), is not capped: the first window is longer than all later ones.
   */
  lemma FirstDelayUncapped(failure: int, max: int, k: nat)
    requires 0 < max < failure <= MAX_INT64 / 2
    ensures Doublings(failure, max, k) == if k == 0 then failure else max
  {
    WrapFits(failure * 2);
  }

  // ----- cooldown records -----

  datatype Cooldown = Unparseable | Record(nextEligible: int, failCount: int)

  datatype Config = Config(success: int, failure: int, failMax: int)

  /** Configurations whose backoff never overflows; every maximum up to half the int64 range is one. */
  predicate SoundConfig(c: Config) {
    0 < c.failure <= c.failMax && FirstReach(c.failure, c.failMax) <= MAX_INT64
  }

  datatype Mark = Success(at: int) | Failure(at: int)

  /** The cooldown entries after one mark. */
  function Marked(c: Config, store: map<string, Cooldown>, w: string, m: Mark): map<string, Cooldown> {
    match m
    case Success(at) => store[w := Record(at + c.success, 0)]
    case Failure(at) =>
      var n := if w in store && store[w].Record? then store[w].failCount + 1 else 1;
      store[w := Record(at + Doublings(c.failure, c.failMax, if n >= 1 then n - 1 else 0), n)]
  }

  function MarkedAll(c: Config, store: map<string, Cooldown>, history: seq<(string, Mark)>): map<string, Cooldown> {
    if history == [] then store
    else
      var last := history[|history| - 1];
      Marked(c, MarkedAll(c, store, history[..|history| - 1]), last.0, last.1)
  }

  /** An unreadable record counts as none: it blocks nothing, and a failure starts to count from one. */
  lemma UnreadableIgnored(c: Config, store: map<string, Cooldown>, w: string, at: int)
    requires w !in store || store[w].Unparseable?
    ensures Eligible(store, w, at)
    ensures Marked(c, store, w, Failure(at)) == store[w := Record(at + c.failure, 1)]
  {
  }

  /** Failures of w since its last success. */
  function FailuresSince(history: seq<(string, Mark)>, w: string): nat {
    if history == [] then 0
    else
      var last := history[|history| - 1];
      if last.0 != w then FailuresSince(history[..|history| - 1], w)
      else if last.1.Success? then 0
      else FailuresSince(history[..|history| - 1], w) + 1
  }

  /** The last mark of w, if any. */
  function LastMark(history: seq<(string, Mark)>, w: string): seq<Mark> {
    if history == [] then []
    else
      var last := history[|history| - 1];
      if last.0 == w then [last.1] else LastMark(history[..|history| - 1], w)
  }

  /** The wallet may be tried again: no readable record, or one whose time has passed. */
  predicate Eligible(store: map<string, Cooldown>, w: string, now: int) {
    w in store && store[w].Record? ==> store[w].nextEligible < now
  }

  /**
    For any history of marks over any wallets: FailCount counts the failures since the
    last success and the window is min(max, failure * 2^(n-1)) after the last failure.
   */
  lemma {:induction false} CooldownHistory(c: Config, history: seq<(string, Mark)>, w: string)
    requires SoundConfig(c)
    ensures var store, n, last := MarkedAll(c, map[], history), FailuresSince(history, w), LastMark(history, w);
            if last == [] then w !in store && n == 0
            else if last[0].Success? then n == 0 && w in store && store[w] == Record(last[0].at + c.success, 0)
            else n >= 1 && w in store && store[w] == Record(last[0].at + Min(c.failMax, c.failure * Pow2(n - 1)), n)
  {
    if history != [] {
      CooldownHistory(c, history[..|history| - 1], w);
      var n := FailuresSince(history, w);
      if n >= 1 {
        BackoffClosedForm(c.failure, c.failMax, n - 1);
      }
    }
  }

  /** The end of the window that the marks leave open for w, if any. */
  function WindowEnd(c: Config, history: seq<(string, Mark)>, w: string): Option<int> {
    var last, n := LastMark(history, w), FailuresSince(history, w);
    if last == [] then None
    else if last[0].Success? then Some(last[0].at + c.success)
    else Some(last[0].at + Min(c.failMax, c.failure * Pow2(if n == 0 then 0 else n - 1)))
  }

  lemma MarkOpensWindow(c: Config, history: seq<(string, Mark)>, mark: Mark, w: string)
    requires SoundConfig(c) && c.success > 0
    ensures WindowEnd(c, history + [(w, mark)], w).Some? && mark.at < WindowEnd(c, history + [(w, mark)], w).value
  {
    var marks := history + [(w, mark)];
    assert marks[..|marks| - 1] == history && marks[|marks| - 1] == (w, mark);
    var n := FailuresSince(marks, w);
    PositivePow2(if n == 0 then 0 else n - 1);
  }

  /** A cooldown read lets a wallet pass exactly when the window of the marks made so far is over. */
  lemma EligibleIff(c: Config, history: seq<(string, Mark)>, w: string, now: int)
    requires SoundConfig(c)
    ensures Eligible(MarkedAll(c, map[], history), w, now) <==>
            (WindowEnd(c, history, w).Some? ==> WindowEnd(c, history, w).value < now)
  {
    CooldownHistory(c, history, w);
  }

  // ----- session retry backoffs -----

  /** One failed attempt in maintainLockSession. */
  function NextLockBackoff(b: int): int {
    if b < 60 * SECOND then (if b * 2 > 60 * SECOND then 60 * SECOND else b * 2) else b
  }

  /** nextReadyReregisterBackoff. */
  function NextReadyBackoff(b: int): int {
    if b * 2 > 60 * SECOND then 60 * SECOND else b * 2
  }

  function Iterated(f: int -> int, b: int, k: nat): int {
    if k == 0 then b else f(Iterated(f, b, k - 1))
  }

  /** Both retry loops wait min(60s, 5s * 2^k) after k failures. */
  lemma {:induction false} RetryBackoffs(k: nat)
    ensures Iterated(NextLockBackoff, 5 * SECOND, k) == Min(60 * SECOND, 5 * SECOND * Pow2(k))
    ensures Iterated(NextReadyBackoff, 5 * SECOND, k) == Min(60 * SECOND, 5 * SECOND * Pow2(k))
  {
    if k > 0 {
      RetryBackoffs(k - 1);
    }
  }

  // ----- the manager -----

  /** A value under the inflight prefix. */
  datatype Inflight = Corrupt | Started(at: int)

  predicate DecideInflightSweep(rec: Inflight, held: bool, now: int, maxAge: int) {
    rec.Corrupt? || (!held && rec.at + maxAge <= now)
  }

  /** The wallets of the listed records that the sweep decides to delete, in listing order. */
  function SweepTargets(listed: seq<(string, Inflight)>, held: set<string>, now: int, maxAge: int): seq<string> {
    if listed == [] then []
    else
      var last := listed[|listed| - 1];
      SweepTargets(listed[..|listed| - 1], held, now, maxAge)
      + if DecideInflightSweep(last.1, last.0 in held, now, maxAge) then [last.0] else []
  }

  lemma {:induction false} SweepTargetsPrefix(listed: seq<(string, Inflight)>, held: set<string>, now: int, maxAge: int, n: nat)
    requires n <= |listed|
    ensures SweepTargets(listed[..n], held, now, maxAge) <= SweepTargets(listed, held, now, maxAge)
  {
    if n < |listed| {
      SweepTargetsPrefix(listed[..|listed| - 1], held, now, maxAge, n);
      assert listed[..|listed| - 1][..n] == listed[..n];
    } else {
      assert listed[..n] == listed;
    }
  }

  /** A listed record that calls for its deletion: unreadable, or not held here and at least maxAge old. */
  ghost predicate Outdated(listed: seq<(string, Inflight)>, held: set<string>, now: int, maxAge: int, w: string) {
    || (w, Corrupt) in listed
    || (w !in held && exists at :: (w, Started(at)) in listed && at + maxAge <= now)
  }

  /** Exactly the wallets with such a record are swept. */
  lemma {:induction false} SweptIff(listed: seq<(string, Inflight)>, held: set<string>, now: int, maxAge: int, w: string)
    ensures w in SweepTargets(listed, held, now, maxAge) <==> Outdated(listed, held, now, maxAge, w)
  {
    if listed != [] {
      var n := |listed| - 1;
      SweptIff(listed[..n], held, now, maxAge, w);
      assert listed == listed[..n] + [listed[n]];
      if listed[n].0 == w && listed[n].1.Started? {
        assert (w, Started(listed[n].1.at)) in listed;
      }
    }
  }

  lemma TargetsNext(listed: seq<(string, Inflight)>, e: (string, Inflight), held: set<string>, now: int, maxAge: int)
    ensures SweepTargets(listed + [e], held, now, maxAge) ==
            SweepTargets(listed, held, now, maxAge) + if Outdated([e], held, now, maxAge, e.0) then [e.0] else []
  {
    assert (listed + [e])[..|listed|] == listed;
    SweptIff([e], held, now, maxAge, e.0);
    assert [e][..0] == [];
  }

  /** The sweep takes the records one by one, in listing order, each on its own account. */
  lemma {:induction false} SweptInOrder(first: seq<(string, Inflight)>, second: seq<(string, Inflight)>,
                                        held: set<string>, now: int, maxAge: int)
    ensures SweepTargets(first + second, held, now, maxAge) ==
            SweepTargets(first, held, now, maxAge) + SweepTargets(second, held, now, maxAge)
  {
    if second == [] {
      assert first + second == first;
    } else {
      var c, e := second[..|second| - 1], second[|second| - 1];
      SweptInOrder(first, c, held, now, maxAge);
      TargetsNext(first + c, e, held, now, maxAge);
      TargetsNext(c, e, held, now, maxAge);
      assert c + [e] == second && first + c + [e] == first + second;
    }
  }

  /** A key held by this instance is swept exactly when its listed record cannot be read. */
  lemma {:induction false} HeldSwept(listed: seq<(string, Inflight)>, held: set<string>, now: int, maxAge: int, w: string)
    requires w in held
    ensures w in SweepTargets(listed, held, now, maxAge) <==> (w, Corrupt) in listed
  {
    if listed != [] {
      var n := |listed| - 1;
      HeldSwept(listed[..n], held, now, maxAge, w);
      assert listed == listed[..n] + [listed[n]];
    }
  }

  /** The next listed record: skipped, or the next target. */
  lemma NextTarget(listed: seq<(string, Inflight)>, held: set<string>, now: int, maxAge: int, i: nat, n: nat)
    requires i < |listed| && n <= |SweepTargets(listed, held, now, maxAge)|
    requires SweepTargets(listed, held, now, maxAge)[..n] == SweepTargets(listed[..i], held, now, maxAge)
    ensures var all := SweepTargets(listed, held, now, maxAge);
            if DecideInflightSweep(listed[i].1, listed[i].0 in held, now, maxAge)
            then
              && n < |all| && all[n] == listed[i].0
              && all[..n + 1] == all[..n] + [all[n]] == SweepTargets(listed[..i + 1], held, now, maxAge)
            else all[..n] == SweepTargets(listed[..i + 1], held, now, maxAge)
  {
    assert listed[..i + 1][..i] == listed[..i];
    SweepTargetsPrefix(listed, held, now, maxAge, i + 1);
  }

  class Manager {
    const config: Config
    var held: set<string>
    var inflight: map<string, Inflight>
    var cooldown: map<string, Cooldown>

    constructor (config: Config)
      ensures this.config == config && held == {} && inflight == map[] && cooldown == map[]
    {
      this.config := config;
      held, inflight, cooldown := {}, map[], map[];
    }

    /**
      Deletes the keys whose listed record is corrupt, or old and not held here, in listing
      order up to the first delete that fails.
     */
    method SweepStale(listed: seq<(string, Inflight)>, maxAge: int, now: int, fails: set<string>) returns (deleted: nat, ok: bool)
      modifies `inflight
      ensures var doomed := SweepTargets(listed, held, now, maxAge);
              && deleted <= |doomed|
              && inflight == old(inflight) - Elems(doomed[..deleted])
              && (forall j :: 0 <= j < deleted ==> doomed[j] !in fails)
              && (ok <==> deleted == |doomed|)
              && (!ok ==> doomed[deleted] in fails)
    {
      deleted := 0;
      ghost var before, doomed := inflight, SweepTargets(listed, held, now, maxAge);
      for i := 0 to |listed|
        invariant deleted <= |doomed| && doomed[..deleted] == SweepTargets(listed[..i], held, now, maxAge)
        invariant inflight == before - Elems(doomed[..deleted])
        invariant forall j :: 0 <= j < deleted ==> doomed[j] !in fails
      {
        var w := listed[i].0;
        NextTarget(listed, held, now, maxAge, i, deleted);
        if DecideInflightSweep(listed[i].1, w in held, now, maxAge) {
          if w in fails {
            return deleted, false;
          }
          assert Elems(doomed[..deleted + 1]) == Elems(doomed[..deleted]) + {w};
          inflight := inflight - {w};
          deleted := deleted + 1;
        }
      }
      assert listed[..|listed|] == listed;
      ok := true;
    }

    /** Whether w is past its window; an unreadable store gives no answer. */
    method CooldownOK(w: string, now: int, readable: bool) returns (a: Answer)
      ensures a.Failed? <==> !readable
      ensures readable ==> (a.Yes? <==> Eligible(cooldown, w, now))
    {
      if !readable { return Failed; }
      if w !in cooldown || cooldown[w].Unparseable? { return Yes; }
      return if cooldown[w].nextEligible < now then Yes else No;
    }

    method MarkSuccess(w: string, now: int, writable: bool) returns (ok: bool)
      modifies `cooldown
      ensures ok <==> writable
      ensures cooldown == if ok then Marked(config, old(cooldown), w, Success(now)) else old(cooldown)
    {
      if !writable { return false; }
      cooldown := cooldown[w := Record(now + config.success, 0)];
      return true;
    }

    method MarkFailure(w: string, now: int, readable: bool, writable: bool) returns (ok: bool)
      modifies `cooldown
      ensures ok <==> readable && writable
      ensures cooldown == if ok then Marked(config, old(cooldown), w, Failure(now)) else old(cooldown)
    {
      if !readable { return false; }
      var failCount := 1;
      if w in cooldown && cooldown[w].Record? {
        failCount := cooldown[w].failCount + 1;
      }
      var backoff := FailureBackoff(config.failure, config.failMax, failCount);
      if !writable { return false; }
      cooldown := cooldown[w := Record(now + backoff, failCount)];
      return true;
    }
  }

  /** A held key with an unreadable record is deleted, although its instance still holds it. */
  method HeldKeySwept(m: Manager, w: string, maxAge: int, now: int)
    requires w in m.held && w in m.inflight && m.inflight[w].Corrupt?
    modifies m`inflight
    ensures w in m.held && m.inflight == old(m.inflight) - {w}
  {
    var listed := [(w, Corrupt)];
    HeldSwept(listed, m.held, now, maxAge, w);
    assert SweepTargets(listed[..0], m.held, now, maxAge) == [];
    assert SweepTargets(listed, m.held, now, maxAge) == [w];
    var deleted, ok := m.SweepStale(listed, maxAge, now, {});
    assert [w][..1] == [w] && Elems([w]) == {w};
  }
}

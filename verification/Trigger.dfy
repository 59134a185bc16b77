/**
  Trigger decision and confirmation hysteresis (pkg/orchestrator/trigger.go).
 */
module Trigger {

  datatype Trigger = None | Proactive | Urgent | Unrecoverable | Migration {
    /** Triggers that need a confirmation streak. */
    predicate Patient() {
      Proactive? || Migration?
    }
  }

  function DecideTrigger(threshold: int, spareTarget: int, aReady: int): Trigger {
    if aReady == 0 then Unrecoverable
    else if aReady < threshold + 1 then Urgent
    else if aReady < threshold + 1 + spareTarget then Proactive
    else None
  }

  // ----- the tracker's step as a function -----

  /** `need` is at least 1: newConfirmTracker raises smaller values. */
  type Need = n: nat | 1 <= n witness 1

  function Observed(need: Need, streak: map<string, nat>, w: string, t: Trigger): (r: (map<string, nat>, bool)) {
    if t.Patient() then
      var n := (if w in streak then streak[w] else 0) + 1;
      if n >= need then (streak - {w}, true) else (streak[w := n], false)
    else (streak - {w}, t.Urgent?)
  }

  /** The streaks after a history of calls for any wallets. */
  function StreaksAfter(need: Need, history: seq<(string, Trigger)>): map<string, nat> {
    if history == [] then map[]
    else
      var last := history[|history| - 1];
      Observed(need, StreaksAfter(need, history[..|history| - 1]), last.0, last.1).0
  }

  /** Does the call (w, t) made after `history` fire? */
  function Fires(need: Need, history: seq<(string, Trigger)>, w: string, t: Trigger): bool {
    Observed(need, StreaksAfter(need, history), w, t).1
  }

  // ----- the independent reference -----

  /** The triggers passed for wallet w, in order. */
  function CallsFor(history: seq<(string, Trigger)>, w: string): seq<Trigger> {
    if history == [] then []
    else
      var last := history[|history| - 1];
      CallsFor(history[..|history| - 1], w) + if last.0 == w then [last.1] else []
  }

  /** Length of the run of patient triggers at the end. */
  function PatientTail(calls: seq<Trigger>): (n: nat)
    ensures n <= |calls|
    ensures forall i :: |calls| - n <= i < |calls| ==> calls[i] == Proactive || calls[i] == Migration
    ensures n < |calls| ==> calls[|calls| - 1 - n] !in {Proactive, Migration}
  {
    if calls == [] || !calls[|calls| - 1].Patient() then 0 else PatientTail(calls[..|calls| - 1]) + 1
  }

  /** Patient calls since the last reset or firing. */
  function Since(need: Need, calls: seq<Trigger>): (n: nat)
    ensures n < need
  {
    if calls == [] || !calls[|calls| - 1].Patient() then 0
    else
      var n := Since(need, calls[..|calls| - 1]) + 1;
      if n == need then 0 else n
  }

  /**
    Over any interleaved history: stored streaks lie strictly between 0 and need, and
    each counts its own wallet's patient calls since the last reset or firing.
   */
  lemma {:induction false} StreakCounts(need: Need, history: seq<(string, Trigger)>, w: string)
    ensures var streak := StreaksAfter(need, history);
            && (w in streak ==> 0 < streak[w] < need)
            && (if w in streak then streak[w] else 0) == Since(need, CallsFor(history, w))
  {
    if history != [] {
      var before, last := history[..|history| - 1], history[|history| - 1];
      StreakCounts(need, before, w);
      if last.0 == w {
        var calls := CallsFor(history, w);
        assert calls[..|calls| - 1] == CallsFor(before, w);
      } else {
        assert CallsFor(history, w) == CallsFor(before, w);
      }
    }
  }

  /** ... that is, the length of the current run of patient calls modulo need. */
  lemma {:induction false} SinceIsTailModNeed(need: Need, calls: seq<Trigger>)
    ensures Since(need, calls) == PatientTail(calls) % need
  {
    if calls != [] && calls[|calls| - 1].Patient() {
      SinceIsTailModNeed(need, calls[..|calls| - 1]);
      ModStep(PatientTail(calls[..|calls| - 1]), need);
    }
  }

  lemma ModStep(a: nat, n: Need)
    ensures (a + 1) % n == if a % n + 1 == n then 0 else a % n + 1
  {
    var q, r := a / n, a % n;
    assert a + 1 == n * q + r + 1;
    if r + 1 == n {
      assert n * (q + 1) == n * q + n;
      DivModUnique(a + 1, n, q + 1, 0);
    } else {
      DivModUnique(a + 1, n, q, r + 1);
    }
  }

  lemma {:induction false} MulApart(n: nat, p: nat, q: nat)
    requires p < q
    ensures n * q >= n * p + n
  {
    assert n * q == n * (q - 1) + n;
    if p < q - 1 {
      MulApart(n, p, q - 1);
    }
  }

  /** Quotient and remainder are determined by x == n * q + r with 0 <= r < n. */
  lemma DivModUnique(x: nat, n: Need, q: nat, r: nat)
    requires x == n * q + r && r < n
    ensures x % n == r && x / n == q
  {
    var p := x / n;
    assert x == n * p + x % n;
    if q > p {
      MulApart(n, p, q);
    } else if q < p {
      MulApart(n, q, p);
    }
  }

  /**
    A call fires iff it is urgent, or it is patient and completes a multiple of `need`
    in the wallet's current run of patient triggers.
   */
  lemma FiresIff(need: Need, history: seq<(string, Trigger)>, w: string, t: Trigger)
    ensures Fires(need, history, w, t) <==>
            t == Urgent || ((t == Proactive || t == Migration) && (PatientTail(CallsFor(history, w)) + 1) % need == 0)
  {
    StreakCounts(need, history, w);
    SinceIsTailModNeed(need, CallsFor(history, w));
    ModStep(PatientTail(CallsFor(history, w)), need);
  }

  /** How many calls for w in `later`, made after `history`, fire. */
  function Firings(need: Need, history: seq<(string, Trigger)>, later: seq<(string, Trigger)>, w: string): nat {
    if later == [] then 0
    else
      var before, last := later[..|later| - 1], later[|later| - 1];
      Firings(need, history, before, w) + if last.0 == w && Fires(need, history + before, w, last.1) then 1 else 0
  }

  lemma {:induction false} CallsForConcat(history: seq<(string, Trigger)>, later: seq<(string, Trigger)>, w: string)
    ensures CallsFor(history + later, w) == CallsFor(history, w) + CallsFor(later, w)
    ensures |later| == 1 ==> CallsFor(later, w) == if later[0].0 == w then [later[0].1] else []
  {
    if later == [] {
      assert history + later == history;
    } else {
      CallsForConcat(history, later[..|later| - 1], w);
      assert (history + later)[..|history + later| - 1] == history + later[..|later| - 1];
    }
  }

  /** A patient call fires when it completes `need`, and is counted otherwise. */
  lemma PatientCall(need: Need, history: seq<(string, Trigger)>, w: string, t: Trigger)
    requires t.Patient()
    ensures var n := Since(need, CallsFor(history, w)) + 1;
            && (Fires(need, history, w, t) <==> n == need)
            && Since(need, CallsFor(history, w) + [t]) == if n == need then 0 else n
  {
    var calls := CallsFor(history, w);
    StreakCounts(need, history, w);
    assert (calls + [t])[..|calls|] == calls;
  }

  /** One more call, patient if it is for w. */
  lemma FiringsNext(need: Need, history: seq<(string, Trigger)>, later: seq<(string, Trigger)>, w: string)
    requires later != [] && (later[|later| - 1].0 == w ==> later[|later| - 1].1.Patient())
    ensures var before, calls := later[..|later| - 1], CallsFor(history, w);
            var n := Since(need, calls + CallsFor(before, w)) + 1;
            if later[|later| - 1].0 == w then
              && |CallsFor(later, w)| == |CallsFor(before, w)| + 1
              && Firings(need, history, later, w) == Firings(need, history, before, w) + (if n == need then 1 else 0)
              && Since(need, calls + CallsFor(later, w)) == (if n == need then 0 else n)
            else
              && CallsFor(later, w) == CallsFor(before, w)
              && Firings(need, history, later, w) == Firings(need, history, before, w)
  {
    var before, last := later[..|later| - 1], later[|later| - 1];
    if last.0 == w {
      CallsForConcat(history, before, w);
      assert CallsFor(history, w) + CallsFor(later, w) == CallsFor(history, w) + CallsFor(before, w) + [last.1];
      PatientCall(need, history + before, w, last.1);
    }
  }

  /** f firings and p pending calls account for x calls. */
  predicate Accounts(need: Need, f: nat, p: nat, x: nat) {
    need * f + p == x
  }

  lemma AccountsNext(need: Need, f: nat, p: nat, x: nat)
    requires Accounts(need, f, p, x)
    ensures if p + 1 == need then Accounts(need, f + 1, 0, x + 1) else Accounts(need, f, p + 1, x + 1)
  {
    assert need * (f + 1) == need * f + need;
  }

  /** Every patient call is either still pending or part of a firing. */
  lemma {:induction false} FiringsCount(need: Need, history: seq<(string, Trigger)>, later: seq<(string, Trigger)>, w: string)
    requires forall i :: 0 <= i < |later| && later[i].0 == w ==> later[i].1.Patient()
    ensures Accounts(need, Firings(need, history, later, w), Since(need, CallsFor(history, w) + CallsFor(later, w)),
                     Since(need, CallsFor(history, w)) + |CallsFor(later, w)|)
  {
    var calls := CallsFor(history, w);
    if later == [] {
      assert calls + CallsFor(later, w) == calls;
      assert Accounts(need, 0, Since(need, calls), Since(need, calls));
    } else {
      var before := later[..|later| - 1];
      FiringsCount(need, history, before, w);
      FiringsNext(need, history, later, w);
      AccountsNext(need, Firings(need, history, before, w), Since(need, calls + CallsFor(before, w)),
                   Since(need, calls) + |CallsFor(before, w)|);
    }
  }

  /**
    After any history, calls of which all those for w are patient, with Proactive and
    Migration mixed and other wallets in between: w fires floor((pending + n) / need)
    times, n being the number of its calls, and the rest stays pending.
   */
  lemma FiringsClosedForm(need: Need, history: seq<(string, Trigger)>, later: seq<(string, Trigger)>, w: string)
    requires forall i :: 0 <= i < |later| && later[i].0 == w ==> later[i].1.Patient()
    ensures Firings(need, history, later, w) == (Since(need, CallsFor(history, w)) + |CallsFor(later, w)|) / need
    ensures Since(need, CallsFor(history + later, w)) == (Since(need, CallsFor(history, w)) + |CallsFor(later, w)|) % need
  {
    FiringsCount(need, history, later, w);
    CallsForConcat(history, later, w);
    DivModUnique(Since(need, CallsFor(history, w)) + |CallsFor(later, w)|, need,
                 Firings(need, history, later, w), Since(need, CallsFor(history + later, w)));
  }

  class ConfirmTracker {
    const need: Need
    var streak: map<string, nat>
    ghost var history: seq<(string, Trigger)>

    ghost predicate Valid()
      reads this
    {
      streak == StreaksAfter(need, history)
    }

    constructor (confirmDeadScans: int)
      ensures Valid() && history == []
      ensures need == if confirmDeadScans < 1 then 1 else confirmDeadScans
    {
      need := if confirmDeadScans < 1 then 1 else confirmDeadScans;
      streak, history := map[], [];
    }

    method Observe(w: string, t: Trigger) returns (act: bool)
      requires Valid()
      modifies this
      ensures Valid() && history == old(history) + [(w, t)]
      ensures act == Fires(need, old(history), w, t)
      ensures streak == Observed(need, old(streak), w, t).0
    {
      assert (history + [(w, t)])[..|history|] == history;
      history := history + [(w, t)];
      if t.None? || t.Unrecoverable? {
        streak := streak - {w};
        act := false;
      } else if t.Urgent? {
        streak := streak - {w};
        act := true;
      } else {
        var n := (if w in streak then streak[w] else 0) + 1;
        act := n >= need;
        streak := if act then streak - {w} else streak[w := n];
      }
    }
  }
}

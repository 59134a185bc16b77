/**
  The hazards of the in-flight lock.  Each is reached from the start by safe steps, and
  nothing but safe steps after it puts two runs on one wallet.
 */
module LockHazards {
  import opened LockManager
  import opened LockProtocol

  /** A safe step from s to t. */
  ghost predicate Leads(s: State, st: Step, t: State, maxAge: int) {
    Enabled(s, st, maxAge) && Safe(s, st, maxAge) && Next(s, st, maxAge) == t
  }

  lemma Extend(s: State, steps: seq<Step>, m: State, st: Step, t: State, maxAge: int)
    requires SafelyExecutes(s, steps, m, maxAge) && Leads(m, st, t, maxAge)
    ensures SafelyExecutes(s, steps + [st], t, maxAge)
  {
    assert [st][1..] == [];
    Append(s, steps, m, [st], t, maxAge);
  }

  // ----- three instances, of which the third stands by -----

  function Idler(i: Instance): Local {
    Local(Session(i, 0), {}, Idle, Resting)
  }

  /** The first instance asks and runs, the second sweeps. */
  function World(now: int, kv: map<Wallet, Entry>, scan: Scan, held: set<Wallet>, sweep: Sweep,
                 runs: map<RunId, Run>, nextRun: RunId): State
  {
    State(now, {Session(0, 0), Session(1, 0), Session(2, 0)}, kv,
          map[0 := Local(Session(0, 0), held, scan, Resting), 1 := Local(Session(1, 0), {}, Idle, sweep), 2 := Idler(2)],
          runs, nextRun)
  }

  function Start(): State {
    World(0, map[], Idle, {}, Resting, map[], 0)
  }

  /** The first instance's key and run. */
  function Key(w: Wallet, value: Inflight): map<Wallet, Entry> {
    map[w := Entry(Session(0, 0), value)]
  }

  function OwnRun(w: Wallet, phase: Phase): Run {
    Run(0, w, Session(0, 0), phase)
  }

  function AskedAt(w: Wallet, at: int): Scan {
    Ready(w, at, Session(0, 0))
  }

  /** A run of the first instance, its record as given. */
  function RunningWorld(now: int, w: Wallet, value: Inflight, sweep: Sweep): State {
    World(now, Key(w, value), Idle, {w}, sweep, map[0 := OwnRun(w, Running)], 1)
  }

  /** A run in the middle of its release. */
  function ReleasingWorld(w: Wallet, scan: Scan): State {
    World(0, Key(w, Started(0)), scan, {}, Resting, map[0 := OwnRun(w, Releasing)], 1)
  }

  /** A key left behind by a release whose delete failed. */
  function LeftoverWorld(now: int, w: Wallet, scan: Scan, sweep: Sweep): State {
    World(now, Key(w, Started(0)), scan, {}, sweep, map[], 1)
  }

  /** The leftover key taken again by its owner. */
  function RetakenWorld(now: int, w: Wallet, sweep: Sweep): State {
    World(now, Key(w, Started(now)), Marking(1), {}, sweep, map[1 := OwnRun(w, Acquired)], 2)
  }

  // ----- its steps -----

  lemma CheckLeads(now: int, kv: map<Wallet, Entry>, sweep: Sweep, runs: map<RunId, Run>, n: RunId, w: Wallet, maxAge: int)
    ensures Leads(World(now, kv, Idle, {}, sweep, runs, n), Check(0, w), World(now, kv, Checked(w), {}, sweep, runs, n), maxAge)
  {
    var a, b := World(now, kv, Idle, {}, sweep, runs, n), World(now, kv, Checked(w), {}, sweep, runs, n);
    assert Next(a, Check(0, w), maxAge).locals == b.locals;
  }

  lemma StampLeads(now: int, kv: map<Wallet, Entry>, sweep: Sweep, runs: map<RunId, Run>, n: RunId, w: Wallet, maxAge: int)
    ensures Leads(World(now, kv, Checked(w), {}, sweep, runs, n), Stamp(0),
                  World(now, kv, Stamped(w, now), {}, sweep, runs, n), maxAge)
  {
    var a, b := World(now, kv, Checked(w), {}, sweep, runs, n), World(now, kv, Stamped(w, now), {}, sweep, runs, n);
    assert Next(a, Stamp(0), maxAge).locals == b.locals;
  }

  lemma SessionLeads(now: int, kv: map<Wallet, Entry>, sweep: Sweep, runs: map<RunId, Run>, n: RunId, w: Wallet, maxAge: int)
    ensures Leads(World(now, kv, Stamped(w, now), {}, sweep, runs, n), ReadSession(0),
                  World(now, kv, AskedAt(w, now), {}, sweep, runs, n), maxAge)
  {
    var a, b := World(now, kv, Stamped(w, now), {}, sweep, runs, n), World(now, kv, AskedAt(w, now), {}, sweep, runs, n);
    assert Next(a, ReadSession(0), maxAge).locals == b.locals;
  }

  /** The first instance asks for w. */
  lemma Asks(steps: seq<Step>, now: int, kv: map<Wallet, Entry>, sweep: Sweep, runs: map<RunId, Run>, n: RunId,
             w: Wallet, maxAge: int)
    returns (longer: seq<Step>)
    requires SafelyExecutes(Start(), steps, World(now, kv, Idle, {}, sweep, runs, n), maxAge)
    ensures SafelyExecutes(Start(), longer, World(now, kv, AskedAt(w, now), {}, sweep, runs, n), maxAge)
  {
    var b, c := World(now, kv, Checked(w), {}, sweep, runs, n), World(now, kv, Stamped(w, now), {}, sweep, runs, n);
    CheckLeads(now, kv, sweep, runs, n, w, maxAge);
    Extend(Start(), steps, World(now, kv, Idle, {}, sweep, runs, n), Check(0, w), b, maxAge);
    longer := steps + [Check(0, w)];
    StampLeads(now, kv, sweep, runs, n, w, maxAge);
    Extend(Start(), longer, b, Stamp(0), c, maxAge);
    longer := longer + [Stamp(0)];
    SessionLeads(now, kv, sweep, runs, n, w, maxAge);
    Extend(Start(), longer, c, ReadSession(0), World(now, kv, AskedAt(w, now), {}, sweep, runs, n), maxAge);
    longer := longer + [ReadSession(0)];
  }

  /** Nothing is stored, or the first instance's key for w. */
  predicate OwnAt(kv: map<Wallet, Entry>, w: Wallet) {
    kv.Keys <= {w} && (w in kv ==> kv[w].session == Session(0, 0))
  }

  lemma KeyTaken(kv: map<Wallet, Entry>, w: Wallet, value: Inflight)
    requires OwnAt(kv, w)
    ensures kv[w := Entry(Session(0, 0), value)] == Key(w, value)
  {
  }

  lemma GrantSafe(now: int, kv: map<Wallet, Entry>, sweep: Sweep, n: RunId, w: Wallet, maxAge: int)
    requires !Dooms(sweep, w, maxAge)
    ensures Safe(World(now, kv, AskedAt(w, now), {}, sweep, map[], n), KvAcquire(0), maxAge)
  {
    assert !Doomed(World(now, kv, AskedAt(w, now), {}, sweep, map[], n), w, maxAge);
  }

  lemma GrantNext(now: int, kv: map<Wallet, Entry>, sweep: Sweep, n: RunId, w: Wallet, maxAge: int)
    requires OwnAt(kv, w)
    ensures Next(World(now, kv, AskedAt(w, now), {}, sweep, map[], n), KvAcquire(0), maxAge) ==
            World(now, Key(w, Started(now)), Marking(n), {}, sweep, map[n := OwnRun(w, Acquired)], n + 1)
  {
    var a := World(now, kv, AskedAt(w, now), {}, sweep, map[], n);
    var b := World(now, Key(w, Started(now)), Marking(n), {}, sweep, map[n := OwnRun(w, Acquired)], n + 1);
    assert Grants(a, w, Session(0, 0));
    KeyTaken(kv, w, Started(now));
    assert Next(a, KvAcquire(0), maxAge).locals == b.locals;
  }

  /** A request on a free key, or on the instance's own leftover key, starts a run. */
  lemma GrantLeads(now: int, kv: map<Wallet, Entry>, sweep: Sweep, n: RunId, w: Wallet, maxAge: int)
    requires !Dooms(sweep, w, maxAge) && OwnAt(kv, w)
    ensures Leads(World(now, kv, AskedAt(w, now), {}, sweep, map[], n), KvAcquire(0),
                  World(now, Key(w, Started(now)), Marking(n), {}, sweep, map[n := OwnRun(w, Acquired)], n + 1), maxAge)
  {
    GrantSafe(now, kv, sweep, n, w, maxAge);
    GrantNext(now, kv, sweep, n, w, maxAge);
  }

  lemma MarkLeads(w: Wallet, maxAge: int)
    ensures Leads(World(0, Key(w, Started(0)), Marking(0), {}, Resting, map[0 := OwnRun(w, Acquired)], 1), MarkHeld(0),
                  RunningWorld(0, w, Started(0), Resting), maxAge)
  {
    var a := World(0, Key(w, Started(0)), Marking(0), {}, Resting, map[0 := OwnRun(w, Acquired)], 1);
    var b := RunningWorld(0, w, Started(0), Resting);
    assert {} + {w} == {w};
    assert Next(a, MarkHeld(0), maxAge).locals == b.locals;
    assert Next(a, MarkHeld(0), maxAge).runs == b.runs;
  }

  lemma ReleaseLeads(w: Wallet, maxAge: int)
    ensures Leads(RunningWorld(0, w, Started(0), Resting), ReleaseLocal(0), ReleasingWorld(w, Idle), maxAge)
    ensures Leads(ReleasingWorld(w, Idle), ReleaseKvFails(0), LeftoverWorld(0, w, Idle, Resting), maxAge)
  {
    var a, b := RunningWorld(0, w, Started(0), Resting), ReleasingWorld(w, Idle);
    assert {w} - {w} == {};
    assert Next(a, ReleaseLocal(0), maxAge).locals == b.locals;
    assert Next(a, ReleaseLocal(0), maxAge).runs == b.runs;
    assert b.runs - {0} == map[];
  }

  lemma TickLeads(kv: map<Wallet, Entry>, held: set<Wallet>, sweep: Sweep, runs: map<RunId, Run>, n: RunId, d: nat, maxAge: int)
    ensures Leads(World(0, kv, Idle, held, sweep, runs, n), Tick(d), World(d, kv, Idle, held, sweep, runs, n), maxAge)
  {
  }

  lemma GarbleLeads(w: Wallet, maxAge: int)
    ensures Leads(RunningWorld(0, w, Started(0), Resting), Garble(w), RunningWorld(0, w, Corrupt, Resting), maxAge)
  {
    assert Next(RunningWorld(0, w, Started(0), Resting), Garble(w), maxAge).kv == Key(w, Corrupt);
  }

  lemma ListLeads(now: int, w: Wallet, value: Inflight, held: set<Wallet>, runs: map<RunId, Run>, n: RunId, maxAge: int)
    ensures Leads(World(now, Key(w, value), Idle, held, Resting, runs, n), SweepList(1),
                  World(now, Key(w, value), Idle, held, Listed(map[w := value]), runs, n), maxAge)
  {
    var a := World(now, Key(w, value), Idle, held, Resting, runs, n);
    var b := World(now, Key(w, value), Idle, held, Listed(map[w := value]), runs, n);
    assert (map v | v in a.kv :: a.kv[v].value) == map[w := value];
    assert Next(a, SweepList(1), maxAge).locals == b.locals;
  }

  lemma ClockLeads(now: int, w: Wallet, maxAge: int)
    ensures Leads(LeftoverWorld(now, w, Idle, Listed(map[w := Started(0)])), SweepClock(1),
                  LeftoverWorld(now, w, Idle, Judging(map[w := Started(0)], now)), maxAge)
  {
    var a := LeftoverWorld(now, w, Idle, Listed(map[w := Started(0)]));
    assert Next(a, SweepClock(1), maxAge).locals == LeftoverWorld(now, w, Idle, Judging(map[w := Started(0)], now)).locals;
  }

  // ----- its executions -----

  /** A run of the first instance on w, which then begins its release. */
  lemma RunReachable(w: Wallet, maxAge: int) returns (running: seq<Step>, releasing: seq<Step>)
    ensures SafelyExecutes(Start(), running, RunningWorld(0, w, Started(0), Resting), maxAge)
    ensures SafelyExecutes(Start(), releasing, ReleasingWorld(w, Idle), maxAge)
  {
    var steps := Asks([], 0, map[], Resting, map[], 0, w, maxAge);
    var a := World(0, map[], AskedAt(w, 0), {}, Resting, map[], 0);
    var b := World(0, Key(w, Started(0)), Marking(0), {}, Resting, map[0 := OwnRun(w, Acquired)], 1);
    var c := RunningWorld(0, w, Started(0), Resting);
    GrantLeads(0, map[], Resting, 0, w, maxAge);
    Extend(Start(), steps, a, KvAcquire(0), b, maxAge);
    MarkLeads(w, maxAge);
    Extend(Start(), steps + [KvAcquire(0)], b, MarkHeld(0), c, maxAge);
    running := steps + [KvAcquire(0)] + [MarkHeld(0)];
    ReleaseLeads(w, maxAge);
    Extend(Start(), running, c, ReleaseLocal(0), ReleasingWorld(w, Idle), maxAge);
    releasing := running + [ReleaseLocal(0)];
  }

  /** A run that is listed and then grows old, and one whose record is overwritten and then listed. */
  lemma ListedRunReachable(w: Wallet, maxAge: int) returns (overdue: seq<Step>, tampered: seq<Step>)
    requires maxAge > 0
    ensures SafelyExecutes(Start(), overdue, RunningWorld(maxAge, w, Started(0), Listed(map[w := Started(0)])), maxAge)
    ensures SafelyExecutes(Start(), tampered, RunningWorld(0, w, Corrupt, Listed(map[w := Corrupt])), maxAge)
  {
    var running, _ := RunReachable(w, maxAge);
    var runs := map[0 := OwnRun(w, Running)];
    var a, b := RunningWorld(0, w, Started(0), Resting), RunningWorld(0, w, Started(0), Listed(map[w := Started(0)]));
    ListLeads(0, w, Started(0), {w}, runs, 1, maxAge);
    Extend(Start(), running, a, SweepList(1), b, maxAge);
    overdue := running + [SweepList(1)];
    TickLeads(Key(w, Started(0)), {w}, Listed(map[w := Started(0)]), runs, 1, maxAge, maxAge);
    Extend(Start(), overdue, b, Tick(maxAge), RunningWorld(maxAge, w, Started(0), Listed(map[w := Started(0)])), maxAge);
    overdue := overdue + [Tick(maxAge)];
    GarbleLeads(w, maxAge);
    var c := RunningWorld(0, w, Corrupt, Resting);
    Extend(Start(), running, a, Garble(w), c, maxAge);
    ListLeads(0, w, Corrupt, {w}, runs, 1, maxAge);
    tampered := running + [Garble(w)];
    Extend(Start(), tampered, c, SweepList(1), RunningWorld(0, w, Corrupt, Listed(map[w := Corrupt])), maxAge);
    tampered := tampered + [SweepList(1)];
  }

  /** A release whose delete failed leaves a key behind; it grows old and the second instance lists it. */
  lemma LeftoverListed(w: Wallet, maxAge: int) returns (steps: seq<Step>)
    requires maxAge > 0
    ensures SafelyExecutes(Start(), steps, LeftoverWorld(maxAge, w, Idle, Listed(map[w := Started(0)])), maxAge)
  {
    var _, releasing := RunReachable(w, maxAge);
    var b, c := LeftoverWorld(0, w, Idle, Resting), LeftoverWorld(maxAge, w, Idle, Resting);
    ReleaseLeads(w, maxAge);
    Extend(Start(), releasing, ReleasingWorld(w, Idle), ReleaseKvFails(0), b, maxAge);
    steps := releasing + [ReleaseKvFails(0)];
    TickLeads(Key(w, Started(0)), {}, Resting, map[], 1, maxAge, maxAge);
    Extend(Start(), steps, b, Tick(maxAge), c, maxAge);
    steps := steps + [Tick(maxAge)];
    ListLeads(maxAge, w, Started(0), {}, map[], 1, maxAge);
    Extend(Start(), steps, c, SweepList(1), LeftoverWorld(maxAge, w, Idle, Listed(map[w := Started(0)])), maxAge);
    steps := steps + [SweepList(1)];
  }

  /** The owner asks for the leftover key after, or takes it before, the sweeper reads the clock. */
  lemma RetakeReachable(w: Wallet, maxAge: int) returns (asked: seq<Step>, retaken: seq<Step>)
    requires maxAge > 0
    ensures SafelyExecutes(Start(), asked,
              LeftoverWorld(maxAge, w, AskedAt(w, maxAge), Judging(map[w := Started(0)], maxAge)), maxAge)
    ensures SafelyExecutes(Start(), retaken, RetakenWorld(maxAge, w, Listed(map[w := Started(0)])), maxAge)
  {
    var list, kv := map[w := Started(0)], Key(w, Started(0));
    var steps := LeftoverListed(w, maxAge);
    ClockLeads(maxAge, w, maxAge);
    Extend(Start(), steps, LeftoverWorld(maxAge, w, Idle, Listed(list)), SweepClock(1),
           LeftoverWorld(maxAge, w, Idle, Judging(list, maxAge)), maxAge);
    asked := Asks(steps + [SweepClock(1)], maxAge, kv, Judging(list, maxAge), map[], 1, w, maxAge);
    retaken := Asks(steps, maxAge, kv, Listed(list), map[], 1, w, maxAge);
    GrantLeads(maxAge, kv, Listed(list), 1, w, maxAge);
    Extend(Start(), retaken, LeftoverWorld(maxAge, w, AskedAt(w, maxAge), Listed(list)), KvAcquire(0),
           RetakenWorld(maxAge, w, Listed(list)), maxAge);
    retaken := retaken + [KvAcquire(0)];
  }

  lemma HalfReleaseReachable(w: Wallet, maxAge: int) returns (steps: seq<Step>)
    ensures SafelyExecutes(Start(), steps, ReleasingWorld(w, AskedAt(w, 0)), maxAge)
  {
    var _, releasing := RunReachable(w, maxAge);
    steps := Asks(releasing, 0, Key(w, Started(0)), Resting, map[0 := OwnRun(w, Releasing)], 1, w, maxAge);
  }

  // ----- the hazards -----

  /**
    The ways in which a step fails to be safe: a run's session expires; a key is taken within
    its own release, or while a sweeper works from a list with an old record of it; a sweeper
    reads the clock over a list with a run's outdated, old or unreadable record.
   */
  datatype Hazard = SessionLost | HalfRelease | StaleList | StaleClock | Overdue | Tampered

  /** The sweeper that reads the clock has listed `value` for a wallet with a run. */
  ghost predicate ClocksOver(s: State, st: Step, w: Wallet, value: Inflight) {
    && st.SweepClock? && st.i in s.locals && s.locals[st.i].sweep.Listed? && Busy(s, w)
    && w in s.locals[st.i].sweep.listing && s.locals[st.i].sweep.listing[w] == value
  }

  ghost predicate Strikes(h: Hazard, s: State, st: Step, w: Wallet, maxAge: int)
    requires Enabled(s, st, maxAge)
  {
    match h
    case SessionLost => st.Expire? && exists r :: r in s.runs && s.runs[r].session == st.s
    case HalfRelease => st.KvAcquire? && s.locals[st.i].scan.wallet == w && HalfReleased(s, st.i, w)
    case StaleList => st.KvAcquire? && s.locals[st.i].scan.wallet == w && Doomed(s, w, maxAge)
    case StaleClock => w in s.kv && exists value :: ClocksOver(s, st, w, value) && value != s.kv[w].value
    case Overdue =>
      && w in s.kv && s.kv[w].value.Started? && s.kv[w].value.at + maxAge <= s.now
      && ClocksOver(s, st, w, s.kv[w].value)
    case Tampered => w in s.kv && s.kv[w].value.Corrupt? && ClocksOver(s, st, w, s.kv[w].value)
  }

  /** An unsafe step of this kind, with an instance standing by. */
  ghost predicate HazardAt(h: Hazard, s: State, st: Step, w: Wallet, maxAge: int) {
    Enabled(s, st, maxAge) && !Safe(s, st, maxAge) && Strikes(h, s, st, w, maxAge) && Bystander(s, 2)
  }

  lemma LostHazard(w: Wallet, maxAge: int)
    ensures HazardAt(SessionLost, RunningWorld(0, w, Started(0), Resting), Expire(Session(0, 0)), w, maxAge)
  {
    var s := RunningWorld(0, w, Started(0), Resting);
    assert s.runs[0].session == Session(0, 0);
  }

  lemma HalfHazard(w: Wallet, maxAge: int)
    ensures HazardAt(HalfRelease, ReleasingWorld(w, AskedAt(w, 0)), KvAcquire(0), w, maxAge)
  {
    var s := ReleasingWorld(w, AskedAt(w, 0));
    assert s.runs[0].phase.Releasing? && HalfReleased(s, 0, w);
    assert Grants(s, w, Session(0, 0));
  }

  lemma ListHazard(w: Wallet, maxAge: int)
    ensures HazardAt(StaleList, LeftoverWorld(maxAge, w, AskedAt(w, maxAge), Judging(map[w := Started(0)], maxAge)),
                     KvAcquire(0), w, maxAge)
  {
    var s := LeftoverWorld(maxAge, w, AskedAt(w, maxAge), Judging(map[w := Started(0)], maxAge));
    assert Dooms(s.locals[1].sweep, w, maxAge) && Doomed(s, w, maxAge);
    assert Grants(s, w, Session(0, 0));
  }

  /** A clock read over a run's outdated or old record, or over an unreadable one. */
  lemma ClockHazard(s: State, r: RunId, w: Wallet, value: Inflight, maxAge: int)
    requires r in s.runs && s.runs[r].wallet == w && w in s.kv && Bystander(s, 2)
    requires 1 in s.locals && s.locals[1].sweep == Listed(map[w := value])
    requires DecideInflightSweep(value, false, s.now, maxAge)
    ensures value != s.kv[w].value ==> HazardAt(StaleClock, s, SweepClock(1), w, maxAge)
    ensures value == s.kv[w].value && value.Started? ==> HazardAt(Overdue, s, SweepClock(1), w, maxAge)
    ensures value == s.kv[w].value && value.Corrupt? ==> HazardAt(Tampered, s, SweepClock(1), w, maxAge)
  {
    assert Dooms(Judging(s.locals[1].sweep.listing, s.now), s.runs[r].wallet, maxAge);
    assert ClocksOver(s, SweepClock(1), w, value);
  }

  lemma ClockHazards(w: Wallet, maxAge: int)
    requires maxAge > 0
    ensures HazardAt(StaleClock, RetakenWorld(maxAge, w, Listed(map[w := Started(0)])), SweepClock(1), w, maxAge)
    ensures HazardAt(Overdue, RunningWorld(maxAge, w, Started(0), Listed(map[w := Started(0)])), SweepClock(1), w, maxAge)
    ensures HazardAt(Tampered, RunningWorld(0, w, Corrupt, Listed(map[w := Corrupt])), SweepClock(1), w, maxAge)
  {
    ClockHazard(RetakenWorld(maxAge, w, Listed(map[w := Started(0)])), 1, w, Started(0), maxAge);
    ClockHazard(RunningWorld(maxAge, w, Started(0), Listed(map[w := Started(0)])), 0, w, Started(0), maxAge);
    ClockHazard(RunningWorld(0, w, Corrupt, Listed(map[w := Corrupt])), 0, w, Corrupt, maxAge);
  }

  /** Every hazard can arise: safe steps from the start lead to an unsafe step of each kind. */
  lemma HazardReachable(h: Hazard, w: Wallet, maxAge: int) returns (steps: seq<Step>, s: State, st: Step)
    requires maxAge > 0
    ensures SafelyExecutes(Start(), steps, s, maxAge) && HazardAt(h, s, st, w, maxAge)
  {
    match h
    case SessionLost =>
      var running, _ := RunReachable(w, maxAge);
      steps := running;
      s, st := RunningWorld(0, w, Started(0), Resting), Expire(Session(0, 0));
      LostHazard(w, maxAge);
    case HalfRelease =>
      steps := HalfReleaseReachable(w, maxAge);
      s, st := ReleasingWorld(w, AskedAt(w, 0)), KvAcquire(0);
      HalfHazard(w, maxAge);
    case StaleList =>
      var asked, _ := RetakeReachable(w, maxAge);
      steps := asked;
      s, st := LeftoverWorld(maxAge, w, AskedAt(w, maxAge), Judging(map[w := Started(0)], maxAge)), KvAcquire(0);
      ListHazard(w, maxAge);
    case StaleClock =>
      var _, retaken := RetakeReachable(w, maxAge);
      steps := retaken;
      s, st := RetakenWorld(maxAge, w, Listed(map[w := Started(0)])), SweepClock(1);
      ClockHazards(w, maxAge);
    case Overdue =>
      var overdue, _ := ListedRunReachable(w, maxAge);
      steps := overdue;
      s, st := RunningWorld(maxAge, w, Started(0), Listed(map[w := Started(0)])), SweepClock(1);
      ClockHazards(w, maxAge);
    case Tampered =>
      var _, tampered := ListedRunReachable(w, maxAge);
      steps := tampered;
      s, st := RunningWorld(0, w, Corrupt, Listed(map[w := Corrupt])), SweepClock(1);
      ClockHazards(w, maxAge);
  }

  /** What safe steps reach from the start satisfies the lock invariant. */
  lemma ReachedInv(steps: seq<Step>, s: State, maxAge: int)
    requires SafelyExecutes(Start(), steps, s, maxAge)
    ensures LockInv(s, maxAge) && Init(Start())
  {
    LockExecution(Start(), steps, s, maxAge);
  }

  /** ... and each one strikes alone: with safe steps before and after it, two runs end up on one wallet. */
  lemma EveryHazardStrikes(h: Hazard, w: Wallet, maxAge: int)
    returns (before: seq<Step>, s: State, st: Step, after: seq<Step>, t: State)
    requires maxAge > 0
    ensures Init(Start()) && SafelyExecutes(Start(), before, s, maxAge)
    ensures HazardAt(h, s, st, w, maxAge)
    ensures SafelyExecutes(Next(s, st, maxAge), after, t, maxAge) && !Exclusive(t)
  {
    before, s, st := HazardReachable(h, w, maxAge);
    ReachedInv(before, s, maxAge);
    after, t := UnsafeStepDoubles(s, st, 2, maxAge);
  }

  /**
    From the start to two instances running one wallet at once: the only unsafe step is the
    re-acquire within a release.
   */
  lemma HalfReleaseClashReachable(w: Wallet, maxAge: int)
    returns (before: seq<Step>, s: State, after: seq<Step>, t: State, q: RunId, r: RunId)
    ensures Init(Start()) && SafelyExecutes(Start(), before, s, maxAge)
    ensures HazardAt(HalfRelease, s, KvAcquire(0), w, maxAge)
    ensures SafelyExecutes(Next(s, KvAcquire(0), maxAge), after, t, maxAge)
    ensures RunsTwice(t, q, r) && t.runs[q].phase.Running? && t.runs[r].phase.Running?
  {
    before := HalfReleaseReachable(w, maxAge);
    s := ReleasingWorld(w, AskedAt(w, 0));
    ReachedInv(before, s, maxAge);
    HalfHazard(w, maxAge);
    r := s.nextRun;
    after, t, q := HalfReleaseClash(s, 0, 0, 2, maxAge);
  }
}

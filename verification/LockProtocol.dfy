/**
  The per-wallet in-flight lock over Consul sessions (pkg/orchestrator/lock.go) as a
  step system: any number of orchestrator instances, one scan thread each, runs that
  end in a two-step release, session expiry and recreation, lost replies, crashes, and
  one stale-lock sweeper each, which lists, reads the clock, judges key by key and deletes.
  A step is one access to shared state: Consul, the clock, or a table under the mutex.
  Two steps are coarser: a new session is created and installed at once (nobody can use it
  in between), and a crash comes with the restart.
 */
module LockProtocol {
  import opened LockManager

  type Wallet = string
  type Instance = nat
  type RunId = nat

  /** Session names are unique; the model writes them as (creator, counter). */
  datatype Session = Session(owner: Instance, serial: nat)

  /** The value under orchestrator/reshare/inflight/{wallet}. */
  datatype Entry = Entry(session: Session, value: Inflight)

  /**
    Acquired: the key is taken, `held` is not set yet.  Running: between Acquire and
    Release.  Releasing: `held` is cleared, the key is not deleted yet.
   */
  datatype Phase = Acquired | Running | Releasing

  datatype Run = Run(inst: Instance, wallet: Wallet, session: Session, phase: Phase)

  /** Where the scan thread of an instance stands inside Acquire. */
  datatype Scan =
    | Idle
    | Checked(wallet: Wallet)
    | Stamped(wallet: Wallet, startedAt: int)
    | Ready(wallet: Wallet, startedAt: int, session: Session)
    | Marking(run: RunId)

  /**
    Where the sweeper of an instance stands inside SweepStale: the records still to judge,
    the time it read after listing them, and the key whose delete is under way.
   */
  datatype Sweep =
    | Resting
    | Listed(listing: map<Wallet, Inflight>)
    | Judging(listing: map<Wallet, Inflight>, at: int)
    | Deleting(listing: map<Wallet, Inflight>, at: int, target: Wallet)

  datatype Local = Local(session: Session, held: set<Wallet>, scan: Scan, sweep: Sweep)

  datatype State = State(
    now: int,
    live: set<Session>,
    kv: map<Wallet, Entry>,
    locals: map<Instance, Local>,
    runs: map<RunId, Run>,
    nextRun: RunId)

  datatype Step =
    | Check(i: Instance, w: Wallet)
    | Stamp(i: Instance)
    | ReadSession(i: Instance)
    | KvAcquire(i: Instance)
    | KvAcquireReplyLost(i: Instance)
    | MarkHeld(i: Instance)
    | ReleaseLocal(r: RunId)
    | ReleaseKv(r: RunId)
    | ReleaseKvFails(r: RunId)
    | Expire(s: Session)
    | Recreate(i: Instance)
    | Crash(i: Instance)
    | SweepList(i: Instance)
    | SweepClock(i: Instance)
    | SweepJudge(i: Instance, w: Wallet)
    | SweepDelete(i: Instance)
    | SweepDeleteFails(i: Instance, applied: bool)
    | SweepEnd(i: Instance)
    | Garble(w: Wallet)
    | Tick(d: nat)

  /** Consul grants the key to a live session unless another session holds it. */
  predicate Grants(s: State, w: Wallet, session: Session) {
    session in s.live && (w in s.kv ==> s.kv[w].session == session)
  }

  predicate Enabled(s: State, st: Step, maxAge: int) {
    match st
    case Check(i, w) => i in s.locals && s.locals[i].scan.Idle? && w !in s.locals[i].held
    case Stamp(i) => i in s.locals && s.locals[i].scan.Checked?
    case ReadSession(i) => i in s.locals && s.locals[i].scan.Stamped?
    case KvAcquire(i) => i in s.locals && s.locals[i].scan.Ready?
    case KvAcquireReplyLost(i) =>
      i in s.locals && s.locals[i].scan.Ready? && Grants(s, s.locals[i].scan.wallet, s.locals[i].scan.session)
    case MarkHeld(i) => i in s.locals && s.locals[i].scan.Marking? && s.locals[i].scan.run in s.runs
    case ReleaseLocal(r) => r in s.runs && s.runs[r].phase.Running? && s.runs[r].inst in s.locals
    case ReleaseKv(r) => r in s.runs && s.runs[r].phase.Releasing?
    case ReleaseKvFails(r) => r in s.runs && s.runs[r].phase.Releasing?
    case Expire(session) => session in s.live
    case Recreate(i) => i in s.locals
    case Crash(i) => i in s.locals
    case SweepList(i) => i in s.locals && s.locals[i].sweep.Resting?
    case SweepClock(i) => i in s.locals && s.locals[i].sweep.Listed?
    case SweepJudge(i, w) => i in s.locals && s.locals[i].sweep.Judging? && w in s.locals[i].sweep.listing
    case SweepDelete(i) => i in s.locals && s.locals[i].sweep.Deleting?
    case SweepDeleteFails(i, _) => i in s.locals && s.locals[i].sweep.Deleting?
    case SweepEnd(i) => i in s.locals && s.locals[i].sweep.Judging? && s.locals[i].sweep.listing == map[]
    case Garble(w) => w in s.kv
    case Tick(d) => true
  }

  function WithLocal(s: State, i: Instance, l: Local): State {
    s.(locals := s.locals[i := l])
  }

  function WithSweep(s: State, i: Instance, sweep: Sweep): State
    requires i in s.locals
  {
    WithLocal(s, i, s.locals[i].(sweep := sweep))
  }

  /** The sweeper looks at one listed record. */
  function Judged(sweep: Sweep, w: Wallet, held: bool, maxAge: int): Sweep
    requires sweep.Judging? && w in sweep.listing
  {
    if DecideInflightSweep(sweep.listing[w], held, sweep.at, maxAge)
    then Deleting(sweep.listing - {w}, sweep.at, w) else Judging(sweep.listing - {w}, sweep.at)
  }

  /** A listed record is deleted if it is unreadable, or old and its wallet not held by the sweeper's instance. */
  lemma JudgedMeaning(sweep: Sweep, w: Wallet, held: bool, maxAge: int)
    requires sweep.Judging? && w in sweep.listing
    ensures Judged(sweep, w, held, maxAge) ==
            if sweep.listing[w].Corrupt? || (!held && sweep.listing[w].at + maxAge <= sweep.at)
            then Deleting(sweep.listing - {w}, sweep.at, w) else Judging(sweep.listing - {w}, sweep.at)
  {
  }

  function Next(s: State, st: Step, maxAge: int): State
    requires Enabled(s, st, maxAge)
  {
    match st
    case Check(i, w) => WithLocal(s, i, s.locals[i].(scan := Checked(w)))
    case Stamp(i) => WithLocal(s, i, s.locals[i].(scan := Stamped(s.locals[i].scan.wallet, s.now)))
    case ReadSession(i) =>
      var l := s.locals[i];
      WithLocal(s, i, l.(scan := Ready(l.scan.wallet, l.scan.startedAt, l.session)))
    case KvAcquire(i) =>
      var l := s.locals[i];
      var w, session := l.scan.wallet, l.scan.session;
      if Grants(s, w, session) then
        WithLocal(s, i, l.(scan := Marking(s.nextRun)))
        .(kv := s.kv[w := Entry(session, Started(l.scan.startedAt))],
          runs := s.runs[s.nextRun := Run(i, w, session, Acquired)],
          nextRun := s.nextRun + 1)
      else WithLocal(s, i, l.(scan := Idle))
    case KvAcquireReplyLost(i) =>
      var l := s.locals[i];
      WithLocal(s, i, l.(scan := Idle))
      .(kv := s.kv[l.scan.wallet := Entry(l.scan.session, Started(l.scan.startedAt))])
    case MarkHeld(i) =>
      var l := s.locals[i];
      var run := s.runs[l.scan.run];
      WithLocal(s, i, l.(held := l.held + {run.wallet}, scan := Idle))
      .(runs := s.runs[l.scan.run := run.(phase := Running)])
    case ReleaseLocal(r) =>
      var run := s.runs[r];
      WithLocal(s, run.inst, s.locals[run.inst].(held := s.locals[run.inst].held - {run.wallet}))
      .(runs := s.runs[r := run.(phase := Releasing)])
    case ReleaseKv(r) => s.(kv := s.kv - {s.runs[r].wallet}, runs := s.runs - {r})
    case ReleaseKvFails(r) => s.(runs := s.runs - {r})
    case Expire(session) =>
      s.(live := s.live - {session}, kv := map w | w in s.kv && s.kv[w].session != session :: s.kv[w])
    case Recreate(i) => Renewed(s, i, s.locals[i].scan, s.locals[i].sweep)
    case Crash(i) => Renewed(s, i, Idle, Resting).(runs := map r | r in s.runs && s.runs[r].inst != i :: s.runs[r])
    case SweepList(i) => WithSweep(s, i, Listed(map w | w in s.kv :: s.kv[w].value))
    case SweepClock(i) => WithSweep(s, i, Judging(s.locals[i].sweep.listing, s.now))
    case SweepJudge(i, w) => WithSweep(s, i, Judged(s.locals[i].sweep, w, w in s.locals[i].held, maxAge))
    case SweepDelete(i) =>
      var sweep := s.locals[i].sweep;
      WithSweep(s, i, Judging(sweep.listing, sweep.at)).(kv := s.kv - {sweep.target})
    case SweepDeleteFails(i, applied) =>
      WithSweep(s, i, Resting).(kv := if applied then s.kv - {s.locals[i].sweep.target} else s.kv)
    case SweepEnd(i) => WithSweep(s, i, Resting)
    case Garble(w) => s.(kv := s.kv[w := s.kv[w].(value := Corrupt)])
    case Tick(d) => s.(now := s.now + d)
  }

  /** A new session for instance i and an empty local lock table. */
  function Renewed(s: State, i: Instance, scan: Scan, sweep: Sweep): State
    requires i in s.locals
  {
    var session := Session(i, s.locals[i].session.serial + 1);
    WithLocal(s, i, Local(session, {}, scan, sweep)).(live := s.live + {session})
  }

  ghost predicate Init(s: State) {
    && s.kv == map[] && s.runs == map[] && s.nextRun == 0
    && forall i :: i in s.locals ==>
         s.locals[i].session.owner == i && s.locals[i].held == {} && s.locals[i].scan.Idle? && s.locals[i].sweep.Resting?
  }

  /** `steps` leads from s to t. */
  ghost predicate Executes(s: State, steps: seq<Step>, t: State, maxAge: int)
    decreases |steps|
  {
    if steps == [] then s == t
    else Enabled(s, steps[0], maxAge) && Executes(Next(s, steps[0], maxAge), steps[1..], t, maxAge)
  }

  // ----- no orphaned hold -----

  ghost predicate RunningOn(s: State, i: Instance, w: Wallet) {
    exists r :: r in s.runs && s.runs[r].inst == i && s.runs[r].wallet == w && s.runs[r].phase.Running?
  }

  ghost predicate HoldInv(s: State) {
    && (forall r :: r in s.runs ==> r < s.nextRun)
    && (forall i :: i in s.locals && s.locals[i].scan.Marking? ==>
          && s.locals[i].scan.run in s.runs && s.runs[s.locals[i].scan.run].inst == i
          && s.runs[s.locals[i].scan.run].phase.Acquired?)
    && (forall i, w :: i in s.locals && w in s.locals[i].held ==> RunningOn(s, i, w))
  }

  lemma RunningOnKept(s: State, t: State, i: Instance, w: Wallet)
    requires RunningOn(s, i, w)
    requires forall r :: r in s.runs && s.runs[r].inst == i && s.runs[r].wallet == w && s.runs[r].phase.Running? ==>
               r in t.runs && t.runs[r] == s.runs[r]
    ensures RunningOn(t, i, w)
  {
    var r :| r in s.runs && s.runs[r].inst == i && s.runs[r].wallet == w && s.runs[r].phase.Running?;
    assert t.runs[r].phase.Running?;
  }

  /** The steps of the scan thread. */
  predicate ScanStep(st: Step) {
    st.Check? || st.Stamp? || st.ReadSession? || st.KvAcquire? || st.KvAcquireReplyLost? || st.MarkHeld?
  }

  /** The steps of the sweeper. */
  predicate SweepStep(st: Step) {
    st.SweepList? || st.SweepClock? || st.SweepJudge? || st.SweepDelete? || st.SweepDeleteFails? || st.SweepEnd?
  }

  lemma ScanStepHold(s: State, st: Step, maxAge: int)
    requires HoldInv(s) && ScanStep(st) && Enabled(s, st, maxAge)
    ensures HoldInv(Next(s, st, maxAge))
  {
    var t := Next(s, st, maxAge);
    forall i, w | i in t.locals && w in t.locals[i].held ensures RunningOn(t, i, w) {
      if st.MarkHeld? && i == st.i && s.runs[s.locals[i].scan.run].wallet == w {
        assert t.runs[s.locals[i].scan.run].phase.Running?;
      } else {
        RunningOnKept(s, t, i, w);
      }
    }
  }

  lemma SweepStepHold(s: State, st: Step, maxAge: int)
    requires HoldInv(s) && SweepStep(st) && Enabled(s, st, maxAge)
    ensures HoldInv(Next(s, st, maxAge))
  {
    var t := Next(s, st, maxAge);
    assert t.runs == s.runs;
    forall i, w | i in t.locals && w in t.locals[i].held ensures RunningOn(t, i, w) {
      RunningOnKept(s, t, i, w);
    }
  }

  lemma OtherStepHold(s: State, st: Step, maxAge: int)
    requires HoldInv(s) && !ScanStep(st) && !SweepStep(st) && Enabled(s, st, maxAge)
    ensures HoldInv(Next(s, st, maxAge))
  {
    var t := Next(s, st, maxAge);
    forall i, w | i in t.locals && w in t.locals[i].held ensures RunningOn(t, i, w) {
      RunningOnKept(s, t, i, w);
    }
  }

  lemma HoldStep(s: State, st: Step, maxAge: int)
    requires HoldInv(s) && Enabled(s, st, maxAge)
    ensures HoldInv(Next(s, st, maxAge))
  {
    if ScanStep(st) {
      ScanStepHold(s, st, maxAge);
    } else if SweepStep(st) {
      SweepStepHold(s, st, maxAge);
    } else {
      OtherStepHold(s, st, maxAge);
    }
  }

  lemma {:induction false} HoldExecution(s: State, steps: seq<Step>, t: State, maxAge: int)
    requires HoldInv(s) && Executes(s, steps, t, maxAge)
    ensures HoldInv(t)
    decreases |steps|
  {
    if steps != [] {
      HoldStep(s, steps[0], maxAge);
      HoldExecution(Next(s, steps[0], maxAge), steps[1..], t, maxAge);
    }
  }

  /**
    In every execution, with expiry, recreation, crashes and two-step releases: a locally
    held wallet has a run of that instance that has not yet started its release, so an
    instance without runs holds nothing.
   */
  lemma NoOrphanedHold(s: State, steps: seq<Step>, t: State, maxAge: int)
    requires Init(s) && Executes(s, steps, t, maxAge)
    ensures forall i, w :: i in t.locals && w in t.locals[i].held ==> RunningOn(t, i, w)
    ensures forall i :: i in t.locals && (forall r :: r in t.runs ==> t.runs[r].inst != i) ==>
              forall w :: w !in t.locals[i].held
  {
    HoldExecution(s, steps, t, maxAge);
  }

  // ----- mutual exclusion -----

  /** At most one run per wallet from the moment its key is taken until its key is given back. */
  ghost predicate Exclusive(s: State) {
    forall q, r :: q in s.runs && r in s.runs && s.runs[q].wallet == s.runs[r].wallet ==> q == r
  }

  ghost predicate HalfReleased(s: State, i: Instance, w: Wallet) {
    exists r :: r in s.runs && s.runs[r].inst == i && s.runs[r].wallet == w && s.runs[r].phase.Releasing?
  }

  ghost predicate Busy(s: State, w: Wallet) {
    exists r :: r in s.runs && s.runs[r].wallet == w
  }

  /** A sweeper that may still delete the wallet's key on what it has listed. */
  predicate Dooms(sweep: Sweep, w: Wallet, maxAge: int) {
    match sweep
    case Resting => false
    case Listed(_) => false
    case Judging(listing, at) => w in listing && DecideInflightSweep(listing[w], false, at, maxAge)
    case Deleting(listing, at, target) =>
      w == target || (w in listing && DecideInflightSweep(listing[w], false, at, maxAge))
  }

  ghost predicate Doomed(s: State, w: Wallet, maxAge: int) {
    exists i :: i in s.locals && Dooms(s.locals[i].sweep, w, maxAge)
  }

  /**
    The steps under which exclusion survives: no session of a run expires; an instance takes
    a key neither between the two halves of its own release nor while a sweeper works from a
    list that shows an old or unreadable record for it; and no sweeper reads the clock when
    its list shows such a record for a wallet with a run.
   */
  ghost predicate Safe(s: State, st: Step, maxAge: int)
    requires Enabled(s, st, maxAge)
  {
    match st
    case Expire(session) => forall r :: r in s.runs ==> s.runs[r].session != session
    case KvAcquire(i) =>
      var scan := s.locals[i].scan;
      Grants(s, scan.wallet, scan.session) ==> !HalfReleased(s, i, scan.wallet) && !Doomed(s, scan.wallet, maxAge)
    case SweepClock(i) =>
      forall r :: r in s.runs ==> !Dooms(Judging(s.locals[i].sweep.listing, s.now), s.runs[r].wallet, maxAge)
    case _ => true
  }

  ghost predicate RunInv(s: State, r: RunId)
    requires r in s.runs
  {
    var run := s.runs[r];
    && run.inst in s.locals
    && run.session.owner == run.inst
    && run.session.serial <= s.locals[run.inst].session.serial
    && run.session in s.live
    && run.wallet in s.kv
    && s.kv[run.wallet].session == run.session
    && (run.phase.Running? && run.session == s.locals[run.inst].session ==> run.wallet in s.locals[run.inst].held)
    && (run.phase.Acquired? ==> s.locals[run.inst].scan == Marking(r))
  }

  predicate Asking(l: Local) {
    l.scan.Checked? || l.scan.Stamped? || l.scan.Ready?
  }

  ghost predicate ScanInv(s: State, i: Instance)
    requires i in s.locals
  {
    var l := s.locals[i];
    && l.session.owner == i
    && (Asking(l) ==> l.scan.wallet !in l.held)
    && (l.scan.Ready? ==>
          && l.scan.session.owner == i && l.scan.session.serial <= l.session.serial
          && forall r :: r in s.runs && s.runs[r].phase.Running? && s.runs[r].wallet == l.scan.wallet ==>
               s.runs[r].session != l.scan.session)
  }

  ghost predicate RunsOk(s: State) {
    forall r :: r in s.runs ==> RunInv(s, r)
  }

  ghost predicate ScansOk(s: State) {
    forall i :: i in s.locals ==> ScanInv(s, i)
  }

  /** No sweeper is about to delete the key of a run. */
  ghost predicate SweepsOk(s: State, maxAge: int) {
    forall i, r :: i in s.locals && r in s.runs ==> !Dooms(s.locals[i].sweep, s.runs[r].wallet, maxAge)
  }

  ghost predicate LockInv(s: State, maxAge: int) {
    && HoldInv(s)
    && Exclusive(s)
    && RunsOk(s)
    && ScansOk(s)
    && SweepsOk(s, maxAge)
  }

  /** A granted request of a live session finds no run on the wallet. */
  lemma GrantMeansFree(s: State, i: Instance, maxAge: int)
    requires LockInv(s, maxAge) && i in s.locals && s.locals[i].scan.Ready?
    requires Grants(s, s.locals[i].scan.wallet, s.locals[i].scan.session)
    requires !HalfReleased(s, i, s.locals[i].scan.wallet)
    ensures !Busy(s, s.locals[i].scan.wallet)
  {
    assert ScanInv(s, i);
  }

  // ----- one step, invariant by invariant -----

  predicate AcquireStep(st: Step) {
    st.KvAcquire? || st.KvAcquireReplyLost?
  }

  lemma AcquireStepRun(s: State, st: Step, maxAge: int, r: RunId)
    requires LockInv(s, maxAge) && AcquireStep(st) && Enabled(s, st, maxAge) && Safe(s, st, maxAge)
    requires r in Next(s, st, maxAge).runs
    ensures RunInv(Next(s, st, maxAge), r)
  {
    assert ScanInv(s, st.i);
    if st.KvAcquire? && Grants(s, s.locals[st.i].scan.wallet, s.locals[st.i].scan.session) {
      GrantMeansFree(s, st.i, maxAge);
    }
    if r in s.runs {
      assert RunInv(s, r);
    }
  }

  lemma ScanStepRun(s: State, st: Step, maxAge: int, r: RunId)
    requires LockInv(s, maxAge) && ScanStep(st) && !AcquireStep(st) && Enabled(s, st, maxAge)
    requires r in Next(s, st, maxAge).runs
    ensures r in s.runs && RunInv(Next(s, st, maxAge), r)
  {
    assert RunInv(s, r);
  }

  lemma SweepStepRun(s: State, st: Step, maxAge: int, r: RunId)
    requires LockInv(s, maxAge) && SweepStep(st) && Enabled(s, st, maxAge)
    requires r in s.runs
    ensures Next(s, st, maxAge).runs == s.runs && RunInv(Next(s, st, maxAge), r)
  {
    assert RunInv(s, r);
    assert !Dooms(s.locals[st.i].sweep, s.runs[r].wallet, maxAge);
  }

  /** Release, expiry, tampering and time. */
  lemma OtherStepRun(s: State, st: Step, maxAge: int, r: RunId)
    requires LockInv(s, maxAge) && !ScanStep(st) && !SweepStep(st) && !st.Recreate? && !st.Crash?
    requires Enabled(s, st, maxAge) && Safe(s, st, maxAge)
    requires r in Next(s, st, maxAge).runs
    ensures r in s.runs && RunInv(Next(s, st, maxAge), r)
  {
    assert RunInv(s, r);
  }

  lemma RenewStepRun(s: State, st: Step, maxAge: int, r: RunId)
    requires LockInv(s, maxAge) && (st.Recreate? || st.Crash?) && Enabled(s, st, maxAge)
    requires r in Next(s, st, maxAge).runs
    ensures r in s.runs && RunInv(Next(s, st, maxAge), r)
  {
    assert RunInv(s, r);
    assert ScanInv(s, s.runs[r].inst);
  }

  lemma StepRuns(s: State, st: Step, maxAge: int)
    requires LockInv(s, maxAge) && Enabled(s, st, maxAge) && Safe(s, st, maxAge)
    ensures RunsOk(Next(s, st, maxAge))
  {
    var t := Next(s, st, maxAge);
    forall r | r in t.runs ensures RunInv(t, r) {
      if AcquireStep(st) {
        AcquireStepRun(s, st, maxAge, r);
      } else if ScanStep(st) {
        ScanStepRun(s, st, maxAge, r);
      } else if SweepStep(st) {
        SweepStepRun(s, st, maxAge, r);
      } else if st.Recreate? || st.Crash? {
        RenewStepRun(s, st, maxAge, r);
      } else {
        OtherStepRun(s, st, maxAge, r);
      }
    }
  }

  lemma ScanStepScan(s: State, st: Step, maxAge: int, i: Instance)
    requires LockInv(s, maxAge) && ScanStep(st) && Enabled(s, st, maxAge) && i in s.locals
    ensures ScanInv(Next(s, st, maxAge), i)
  {
    assert ScanInv(s, i);
    assert RunsOk(s);
  }

  lemma OtherStepScan(s: State, st: Step, maxAge: int, i: Instance)
    requires ScansOk(s) && !ScanStep(st) && Enabled(s, st, maxAge) && i in s.locals
    ensures ScanInv(Next(s, st, maxAge), i)
  {
    assert ScanInv(s, i);
  }

  lemma StepScans(s: State, st: Step, maxAge: int)
    requires LockInv(s, maxAge) && Enabled(s, st, maxAge)
    ensures ScansOk(Next(s, st, maxAge))
  {
    forall i | i in Next(s, st, maxAge).locals ensures ScanInv(Next(s, st, maxAge), i) {
      assert i in s.locals;
      if ScanStep(st) {
        ScanStepScan(s, st, maxAge, i);
      } else {
        OtherStepScan(s, st, maxAge, i);
      }
    }
  }

  /** What a sweeper dooms after a step, it doomed before, unless it has just read the clock. */
  lemma DoomsBefore(s: State, st: Step, maxAge: int, i: Instance, w: Wallet)
    requires Enabled(s, st, maxAge) && i in Next(s, st, maxAge).locals && Dooms(Next(s, st, maxAge).locals[i].sweep, w, maxAge)
    ensures i in s.locals
    ensures Dooms(s.locals[i].sweep, w, maxAge) ||
            (st == SweepClock(i) && Dooms(Judging(s.locals[i].sweep.listing, s.now), w, maxAge))
  {
  }

  lemma StepSweeps(s: State, st: Step, maxAge: int)
    requires HoldInv(s) && SweepsOk(s, maxAge) && Enabled(s, st, maxAge) && Safe(s, st, maxAge)
    ensures SweepsOk(Next(s, st, maxAge), maxAge)
  {
    var t := Next(s, st, maxAge);
    forall i, r | i in t.locals && r in t.runs ensures !Dooms(t.locals[i].sweep, t.runs[r].wallet, maxAge) {
      OnlyGrantsAddRuns(s, st, maxAge, r);
      if Dooms(t.locals[i].sweep, t.runs[r].wallet, maxAge) {
        DoomsBefore(s, st, maxAge, i, t.runs[r].wallet);
      }
    }
  }

  lemma OnlyGrantsAddRuns(s: State, st: Step, maxAge: int, r: RunId)
    requires HoldInv(s) && Enabled(s, st, maxAge) && r in Next(s, st, maxAge).runs
    ensures r in s.runs ==> Next(s, st, maxAge).runs[r].wallet == s.runs[r].wallet
    ensures r !in s.runs ==>
              && st.KvAcquire? && r == s.nextRun && Grants(s, s.locals[st.i].scan.wallet, s.locals[st.i].scan.session)
              && Next(s, st, maxAge).runs[r].wallet == s.locals[st.i].scan.wallet
  {
  }

  lemma StepExclusive(s: State, st: Step, maxAge: int)
    requires LockInv(s, maxAge) && Enabled(s, st, maxAge) && Safe(s, st, maxAge)
    ensures Exclusive(Next(s, st, maxAge))
  {
    var t := Next(s, st, maxAge);
    forall q, r | q in t.runs && r in t.runs && t.runs[q].wallet == t.runs[r].wallet ensures q == r {
      OnlyGrantsAddRuns(s, st, maxAge, q);
      OnlyGrantsAddRuns(s, st, maxAge, r);
      if q !in s.runs || r !in s.runs {
        GrantMeansFree(s, st.i, maxAge);
      }
    }
  }

  lemma LockStep(s: State, st: Step, maxAge: int)
    requires LockInv(s, maxAge) && Enabled(s, st, maxAge) && Safe(s, st, maxAge)
    ensures LockInv(Next(s, st, maxAge), maxAge)
  {
    HoldStep(s, st, maxAge);
    StepExclusive(s, st, maxAge);
    StepRuns(s, st, maxAge);
    StepScans(s, st, maxAge);
    StepSweeps(s, st, maxAge);
  }

  /** Executions all of whose steps are safe. */
  ghost predicate SafelyExecutes(s: State, steps: seq<Step>, t: State, maxAge: int)
    decreases |steps|
  {
    if steps == [] then s == t
    else
      && Enabled(s, steps[0], maxAge) && Safe(s, steps[0], maxAge)
      && SafelyExecutes(Next(s, steps[0], maxAge), steps[1..], t, maxAge)
  }

  lemma {:induction false} LockExecution(s: State, steps: seq<Step>, t: State, maxAge: int)
    requires LockInv(s, maxAge) && SafelyExecutes(s, steps, t, maxAge)
    ensures LockInv(t, maxAge)
    decreases |steps|
  {
    if steps != [] {
      LockStep(s, steps[0], maxAge);
      LockExecution(Next(s, steps[0], maxAge), steps[1..], t, maxAge);
    }
  }

  /** What a node reads before signing: is a reshare of the wallet in flight? */
  predicate SigningBlocked(s: State, w: Wallet) {
    w in s.kv
  }

  /**
    Mutual exclusion for any number of instances and any safe interleaving: one run per
    wallet, its key in Consul under a live session of its instance, signing blocked.
   */
  lemma MutualExclusion(s: State, steps: seq<Step>, t: State, maxAge: int)
    requires Init(s) && SafelyExecutes(s, steps, t, maxAge)
    ensures Exclusive(t)
    ensures forall r :: r in t.runs ==>
              && SigningBlocked(t, t.runs[r].wallet)
              && t.kv[t.runs[r].wallet].session == t.runs[r].session
              && t.runs[r].session in t.live
              && t.runs[r].session.owner == t.runs[r].inst
  {
    LockExecution(s, steps, t, maxAge);
    assert forall r :: r in t.runs ==> RunInv(t, r);
  }

  // ----- the condition is exact -----

  /** One run per wallet, and its key in Consul. */
  ghost predicate Protected(s: State) {
    Exclusive(s) && forall r :: r in s.runs ==> SigningBlocked(s, s.runs[r].wallet)
  }

  /** t can follow s by safe steps. */
  ghost predicate SafelyFollows(s: State, steps: seq<Step>, t: State, maxAge: int) {
    SafelyExecutes(s, steps, t, maxAge)
  }

  lemma Prepend(s: State, st: Step, rest: seq<Step>, t: State, maxAge: int)
    requires Enabled(s, st, maxAge) && Safe(s, st, maxAge) && SafelyExecutes(Next(s, st, maxAge), rest, t, maxAge)
    ensures SafelyExecutes(s, [st] + rest, t, maxAge)
  {
    assert ([st] + rest)[1..] == rest;
  }

  lemma {:induction false} Append(s: State, first: seq<Step>, m: State, second: seq<Step>, t: State, maxAge: int)
    requires SafelyExecutes(s, first, m, maxAge) && SafelyExecutes(m, second, t, maxAge)
    ensures SafelyExecutes(s, first + second, t, maxAge)
    decreases |first|
  {
    if first == [] {
      assert first + second == second;
    } else {
      Append(Next(s, first[0], maxAge), first[1..], m, second, t, maxAge);
      assert (first + second)[1..] == first[1..] + second;
    }
  }

  /** What a sweeper's steps leave alone. */
  ghost predicate SweptBy(s: State, t: State, k: Instance) {
    && t.runs == s.runs && t.nextRun == s.nextRun && t.kv.Keys <= s.kv.Keys && s.live <= t.live
    && t.locals.Keys == s.locals.Keys
    && (forall i :: i in s.locals && i != k ==> t.locals[i] == s.locals[i])
    && (k in s.locals ==> t.locals[k].scan == s.locals[k].scan && t.locals[k].held <= s.locals[k].held)
    && (k in s.locals && s.locals[k].session in s.live ==> t.locals[k].session in t.live)
  }

  /** A sweeper that decides against a key deletes it. */
  lemma JudgedLoses(s: State, k: Instance, w: Wallet, maxAge: int) returns (steps: seq<Step>, t: State)
    requires k in s.locals && s.locals[k].sweep.Judging? && w in s.locals[k].sweep.listing
    requires DecideInflightSweep(s.locals[k].sweep.listing[w], w in s.locals[k].held, s.locals[k].sweep.at, maxAge)
    ensures SafelyExecutes(s, steps, t, maxAge) && SweptBy(s, t, k)
    ensures w !in t.kv && !Dooms(t.locals[k].sweep, w, maxAge)
  {
    var a := Next(s, SweepJudge(k, w), maxAge);
    assert a.locals[k].sweep.Deleting? && a.locals[k].sweep.target == w;
    t := Next(a, SweepDelete(k), maxAge);
    steps := [SweepJudge(k, w)] + ([SweepDelete(k)] + []);
    Prepend(a, SweepDelete(k), [], t, maxAge);
    Prepend(s, SweepJudge(k, w), [SweepDelete(k)] + [], t, maxAge);
  }

  /** ... even a key that its own instance holds, once that instance renews its session. */
  lemma ListedLoses(s: State, k: Instance, w: Wallet, maxAge: int) returns (steps: seq<Step>, t: State)
    requires k in s.locals && s.locals[k].sweep.Judging? && Dooms(s.locals[k].sweep, w, maxAge)
    ensures SafelyExecutes(s, steps, t, maxAge) && SweptBy(s, t, k)
    ensures w !in t.kv && !Dooms(t.locals[k].sweep, w, maxAge)
  {
    if w in s.locals[k].held {
      var n := Next(s, Recreate(k), maxAge);
      var rest;
      rest, t := JudgedLoses(n, k, w, maxAge);
      Prepend(s, Recreate(k), rest, t, maxAge);
      steps := [Recreate(k)] + rest;
    } else {
      steps, t := JudgedLoses(s, k, w, maxAge);
    }
  }

  lemma TargetLoses(s: State, k: Instance, maxAge: int) returns (t: State)
    requires k in s.locals && s.locals[k].sweep.Deleting?
    ensures SafelyExecutes(s, [SweepDelete(k)] + [], t, maxAge) && SweptBy(s, t, k) && t.locals[k].sweep.Judging?
    ensures s.locals[k].sweep.target !in t.kv
    ensures forall w :: Dooms(t.locals[k].sweep, w, maxAge) ==> Dooms(s.locals[k].sweep, w, maxAge)
    ensures forall w :: Dooms(s.locals[k].sweep, w, maxAge) && w != s.locals[k].sweep.target ==>
              Dooms(t.locals[k].sweep, w, maxAge)
  {
    t := Next(s, SweepDelete(k), maxAge);
    Prepend(s, SweepDelete(k), [], t, maxAge);
  }

  /** A sweeper that dooms a key can delete it, whatever it is doing. */
  lemma DoomedLoses(s: State, k: Instance, w: Wallet, maxAge: int) returns (steps: seq<Step>, t: State)
    requires k in s.locals && Dooms(s.locals[k].sweep, w, maxAge)
    ensures SafelyExecutes(s, steps, t, maxAge) && SweptBy(s, t, k)
    ensures w !in t.kv && !Dooms(t.locals[k].sweep, w, maxAge)
  {
    if s.locals[k].sweep.Judging? {
      steps, t := ListedLoses(s, k, w, maxAge);
    } else {
      var a := TargetLoses(s, k, maxAge);
      if Dooms(a.locals[k].sweep, w, maxAge) {
        var rest;
        rest, t := ListedLoses(a, k, w, maxAge);
        steps := ([SweepDelete(k)] + []) + rest;
        Append(s, [SweepDelete(k)] + [], a, rest, t, maxAge);
      } else {
        steps, t := [SweepDelete(k)] + [], a;
      }
    }
  }

  /** From an unsafe step, safe steps lead to a doubled wallet or a run without its key. */
  lemma UnsafeStepExposes(s: State, st: Step, maxAge: int) returns (steps: seq<Step>, t: State)
    requires LockInv(s, maxAge) && Enabled(s, st, maxAge) && !Safe(s, st, maxAge)
    ensures SafelyFollows(Next(s, st, maxAge), steps, t, maxAge) && !Protected(t)
  {
    var n := Next(s, st, maxAge);
    match st
    case Expire(session) =>
      var r :| r in s.runs && s.runs[r].session == session;
      assert RunInv(s, r);
      assert n.runs[r].wallet !in n.kv;
      steps, t := [], n;
    case KvAcquire(i) =>
      steps, t := UnsafeAcquireExposes(s, i, maxAge);
    case SweepClock(i) =>
      var r :| r in s.runs && Dooms(Judging(s.locals[i].sweep.listing, s.now), s.runs[r].wallet, maxAge);
      steps, t := DoomedLoses(n, i, s.runs[r].wallet, maxAge);
      assert r in t.runs && t.runs[r].wallet !in t.kv;
  }

  lemma UnsafeAcquireExposes(s: State, i: Instance, maxAge: int) returns (steps: seq<Step>, t: State)
    requires LockInv(s, maxAge) && Enabled(s, KvAcquire(i), maxAge) && !Safe(s, KvAcquire(i), maxAge)
    ensures SafelyFollows(Next(s, KvAcquire(i), maxAge), steps, t, maxAge) && !Protected(t)
  {
    var n, w := Next(s, KvAcquire(i), maxAge), s.locals[i].scan.wallet;
    if HalfReleased(s, i, w) {
      var r :| r in s.runs && s.runs[r].inst == i && s.runs[r].wallet == w;
      steps, t := [], n;
      assert r in n.runs && s.nextRun in n.runs && n.runs[r].wallet == n.runs[s.nextRun].wallet;
    } else {
      var k :| k in s.locals && Dooms(s.locals[k].sweep, w, maxAge);
      assert n.locals[k].sweep == s.locals[k].sweep;
      steps, t := DoomedLoses(n, k, w, maxAge);
      assert s.nextRun in t.runs && t.runs[s.nextRun].wallet == w;
    }
  }

  /**
    Exactness: in any state that safe steps reach, a step is safe if and only if every
    safe continuation of it keeps one run per wallet and that run's key in Consul.
   */
  lemma SafeIff(s: State, st: Step, maxAge: int)
    requires LockInv(s, maxAge) && Enabled(s, st, maxAge)
    ensures Safe(s, st, maxAge) <==>
            forall steps, t :: SafelyFollows(Next(s, st, maxAge), steps, t, maxAge) ==> Protected(t)
  {
    if Safe(s, st, maxAge) {
      LockStep(s, st, maxAge);
      forall steps, t | SafelyFollows(Next(s, st, maxAge), steps, t, maxAge) ensures Protected(t) {
        LockExecution(Next(s, st, maxAge), steps, t, maxAge);
        assert forall r :: r in t.runs ==> RunInv(t, r);
      }
    } else {
      var steps, t := UnsafeStepExposes(s, st, maxAge);
    }
  }

  // ----- a second run -----

  /** An instance that could take over: alive, between two acquires, without runs. */
  ghost predicate Bystander(s: State, j: Instance) {
    && j in s.locals && s.locals[j].scan.Idle? && s.locals[j].session in s.live
    && s.locals[j].held == {}
    && forall r :: r in s.runs ==> s.runs[r].inst != j
  }

  ghost predicate RunsTwice(s: State, q: RunId, r: RunId) {
    q != r && q in s.runs && r in s.runs && s.runs[q].wallet == s.runs[r].wallet && s.runs[q].inst != s.runs[r].inst
  }

  /** A run whose key is gone is doubled by the next instance that looks. */
  lemma KeyLossDoubles(s: State, r: RunId, j: Instance, maxAge: int) returns (steps: seq<Step>, t: State)
    requires r in s.runs && r < s.nextRun && s.runs[r].wallet !in s.kv && Bystander(s, j)
    requires !Doomed(s, s.runs[r].wallet, maxAge)
    ensures SafelyExecutes(s, steps, t, maxAge)
    ensures RunsTwice(t, s.nextRun, r) && t.runs[r] == s.runs[r] && t.runs[s.nextRun].phase.Running?
  {
    var w := s.runs[r].wallet;
    var a := Next(s, Check(j, w), maxAge);
    var b := Next(a, Stamp(j), maxAge);
    var c := Next(b, ReadSession(j), maxAge);
    var rest;
    rest, t := AskedDoubles(c, r, j, maxAge);
    Prepend(b, ReadSession(j), rest, t, maxAge);
    Prepend(a, Stamp(j), [ReadSession(j)] + rest, t, maxAge);
    Prepend(s, Check(j, w), [Stamp(j)] + ([ReadSession(j)] + rest), t, maxAge);
    steps := [Check(j, w)] + ([Stamp(j)] + ([ReadSession(j)] + rest));
  }

  lemma AskedDoubles(s: State, r: RunId, j: Instance, maxAge: int) returns (steps: seq<Step>, t: State)
    requires r in s.runs && r < s.nextRun && s.runs[r].wallet !in s.kv && !Doomed(s, s.runs[r].wallet, maxAge)
    requires j in s.locals && s.locals[j].scan.Ready? && s.locals[j].scan.wallet == s.runs[r].wallet
    requires s.locals[j].scan.session in s.live && forall q :: q in s.runs ==> s.runs[q].inst != j
    ensures SafelyExecutes(s, steps, t, maxAge)
    ensures RunsTwice(t, s.nextRun, r) && t.runs[r] == s.runs[r] && t.runs[s.nextRun].phase.Running?
  {
    var a := Next(s, KvAcquire(j), maxAge);
    assert a.locals[j].scan == Marking(s.nextRun) && a.runs[s.nextRun].wallet == s.runs[r].wallet;
    t := Next(a, MarkHeld(j), maxAge);
    Prepend(a, MarkHeld(j), [], t, maxAge);
    Prepend(s, KvAcquire(j), [MarkHeld(j)] + [], t, maxAge);
    steps := [KvAcquire(j)] + ([MarkHeld(j)] + []);
  }

  lemma BystanderStays(s: State, t: State, k: Instance, j: Instance)
    requires SweptBy(s, t, k) && Bystander(s, j)
    ensures Bystander(t, j)
  {
  }

  /** All sweepers that doom the wallet have their way. */
  lemma SweptClean(s: State, w: Wallet, dooming: set<Instance>, j: Instance, maxAge: int) returns (steps: seq<Step>, t: State)
    requires Bystander(s, j) && (dooming == {} ==> w !in s.kv)
    requires forall i :: i in dooming <==> i in s.locals && Dooms(s.locals[i].sweep, w, maxAge)
    ensures SafelyExecutes(s, steps, t, maxAge) && Bystander(t, j)
    ensures t.runs == s.runs && t.nextRun == s.nextRun && w !in t.kv && !Doomed(t, w, maxAge)
    decreases |dooming|
  {
    if dooming == {} {
      steps, t := [], s;
    } else {
      var k :| k in dooming;
      var first, m := DoomedLoses(s, k, w, maxAge);
      BystanderStays(s, m, k, j);
      var rest;
      rest, t := SweptClean(m, w, dooming - {k}, j, maxAge);
      Append(s, first, m, rest, t, maxAge);
      steps := first + rest;
    }
  }

  /** A run that a sweeper dooms, or whose key is gone, ends up doubled. */
  lemma ExposedDoubles(s: State, r: RunId, j: Instance, maxAge: int) returns (steps: seq<Step>, t: State, q: RunId)
    requires r in s.runs && r < s.nextRun && Bystander(s, j)
    requires s.runs[r].wallet !in s.kv || Doomed(s, s.runs[r].wallet, maxAge)
    ensures SafelyExecutes(s, steps, t, maxAge) && RunsTwice(t, q, r)
  {
    var w := s.runs[r].wallet;
    var dooming := set i | i in s.locals && Dooms(s.locals[i].sweep, w, maxAge);
    if Doomed(s, w, maxAge) {
      var k :| k in s.locals && Dooms(s.locals[k].sweep, w, maxAge);
      assert k in dooming;
    }
    var first, m := SweptClean(s, w, dooming, j, maxAge);
    var rest;
    rest, t := KeyLossDoubles(m, r, j, maxAge);
    Append(s, first, m, rest, t, maxAge);
    steps, q := first + rest, m.nextRun;
  }

  /**
    With another instance standing by, an unsafe step needs nothing but safe steps after it
    to put two runs on one wallet.
   */
  lemma UnsafeStepDoubles(s: State, st: Step, j: Instance, maxAge: int) returns (steps: seq<Step>, t: State)
    requires LockInv(s, maxAge) && Bystander(s, j) && Enabled(s, st, maxAge) && !Safe(s, st, maxAge)
    ensures SafelyExecutes(Next(s, st, maxAge), steps, t, maxAge) && !Exclusive(t)
  {
    var n, q := Next(s, st, maxAge), 0;
    match st
    case Expire(session) =>
      var r :| r in s.runs && s.runs[r].session == session;
      assert RunInv(s, r) && ScanInv(s, j);
      steps, t, q := ExposedDoubles(n, r, j, maxAge);
    case KvAcquire(i) =>
      steps, t := UnsafeAcquireDoubles(s, i, j, maxAge);
    case SweepClock(i) =>
      var r :| r in s.runs && Dooms(Judging(s.locals[i].sweep.listing, s.now), s.runs[r].wallet, maxAge);
      assert Dooms(n.locals[i].sweep, n.runs[r].wallet, maxAge);
      steps, t, q := ExposedDoubles(n, r, j, maxAge);
  }

  lemma UnsafeAcquireDoubles(s: State, i: Instance, j: Instance, maxAge: int) returns (steps: seq<Step>, t: State)
    requires LockInv(s, maxAge) && Bystander(s, j) && Enabled(s, KvAcquire(i), maxAge) && !Safe(s, KvAcquire(i), maxAge)
    ensures SafelyExecutes(Next(s, KvAcquire(i), maxAge), steps, t, maxAge) && !Exclusive(t)
  {
    var n, w, q := Next(s, KvAcquire(i), maxAge), s.locals[i].scan.wallet, 0;
    if HalfReleased(s, i, w) {
      var r :| r in s.runs && s.runs[r].inst == i && s.runs[r].wallet == w;
      steps, t := [], n;
      assert r in n.runs && s.nextRun in n.runs && n.runs[r].wallet == n.runs[s.nextRun].wallet;
    } else {
      var k :| k in s.locals && Dooms(s.locals[k].sweep, w, maxAge);
      assert n.locals[k].sweep == s.locals[k].sweep;
      steps, t, q := ExposedDoubles(n, s.nextRun, j, maxAge);
    }
  }

  /**
    The window between the two halves of a release is a real hazard: an instance that
    re-acquires the wallet there loses its new key to its own old run, and ends up, by safe
    steps alone, running beside another instance.
   */
  lemma HalfReleaseClash(s: State, r: RunId, i: Instance, j: Instance, maxAge: int) returns (rest: seq<Step>, t: State, q: RunId)
    requires LockInv(s, maxAge) && Bystander(s, j)
    requires r in s.runs && s.runs[r].phase.Releasing? && s.runs[r].inst == i
    requires s.locals[i].scan.Ready? && s.locals[i].scan.wallet == s.runs[r].wallet
    requires s.locals[i].scan.session == s.runs[r].session
    ensures Enabled(s, KvAcquire(i), maxAge) && SafelyExecutes(Next(s, KvAcquire(i), maxAge), rest, t, maxAge)
    ensures RunsTwice(t, q, s.nextRun) && t.runs[q].phase.Running? && t.runs[s.nextRun].phase.Running?
  {
    assert RunInv(s, r);
    var n := Next(s, KvAcquire(i), maxAge);
    assert !Doomed(n, s.runs[r].wallet, maxAge);
    rest, t, q := ReleasedBehind(n, r, s.nextRun, i, j, maxAge);
  }

  /** The second half of an old run's release takes the key away from a new run. */
  lemma ReleasedBehind(s: State, r: RunId, later: RunId, i: Instance, j: Instance, maxAge: int)
    returns (steps: seq<Step>, t: State, q: RunId)
    requires Bystander(s, j) && r != later && r in s.runs && later in s.runs && later < s.nextRun && i in s.locals
    requires s.runs[r].phase.Releasing? && s.runs[later].wallet == s.runs[r].wallet && s.runs[later].inst == i
    requires s.locals[i].scan == Marking(later) && !Doomed(s, s.runs[r].wallet, maxAge)
    ensures SafelyExecutes(s, steps, t, maxAge) && RunsTwice(t, q, later)
    ensures t.runs[q].phase.Running? && t.runs[later].phase.Running?
  {
    var b := Next(s, MarkHeld(i), maxAge);
    var c := Next(b, ReleaseKv(r), maxAge);
    assert !Doomed(c, c.runs[later].wallet, maxAge);
    q := b.nextRun;
    var rest;
    rest, t := KeyLossDoubles(c, later, j, maxAge);
    Prepend(b, ReleaseKv(r), rest, t, maxAge);
    Prepend(s, MarkHeld(i), [ReleaseKv(r)] + rest, t, maxAge);
    steps := [MarkHeld(i)] + ([ReleaseKv(r)] + rest);
  }

  // ----- without sweeping, and with releases and sweeps as one step -----

  /** No session of a run expires, and no key is taken again within its release. */
  ghost predicate NoHazard(s: State, st: Step, maxAge: int)
    requires Enabled(s, st, maxAge)
  {
    match st
    case Expire(session) => forall r :: r in s.runs ==> s.runs[r].session != session
    case KvAcquire(i) =>
      var scan := s.locals[i].scan;
      Grants(s, scan.wallet, scan.session) ==> !HalfReleased(s, i, scan.wallet)
    case _ => true
  }

  /** Executions without sweepers, as configured by default: runs may last as long as they like. */
  ghost predicate UnsweptExecutes(s: State, steps: seq<Step>, t: State, maxAge: int)
    decreases |steps|
  {
    if steps == [] then s == t
    else
      && !SweepStep(steps[0]) && Enabled(s, steps[0], maxAge)
      && NoHazard(s, steps[0], maxAge)
      && UnsweptExecutes(Next(s, steps[0], maxAge), steps[1..], t, maxAge)
  }

  ghost predicate AllResting(s: State) {
    forall i :: i in s.locals ==> s.locals[i].sweep.Resting?
  }

  lemma StaysResting(s: State, st: Step, maxAge: int)
    requires AllResting(s) && !SweepStep(st) && Enabled(s, st, maxAge)
    ensures AllResting(Next(s, st, maxAge))
  {
  }

  lemma {:induction false} UnsweptIsSafe(s: State, steps: seq<Step>, t: State, maxAge: int)
    requires AllResting(s) && UnsweptExecutes(s, steps, t, maxAge)
    ensures SafelyExecutes(s, steps, t, maxAge)
    decreases |steps|
  {
    if steps != [] {
      StaysResting(s, steps[0], maxAge);
      UnsweptIsSafe(Next(s, steps[0], maxAge), steps[1..], t, maxAge);
    }
  }

  /** With the sweeper off, live sessions and no re-acquiring within a release are all that exclusion needs. */
  lemma MutualExclusionUnswept(s: State, steps: seq<Step>, t: State, maxAge: int)
    requires Init(s) && UnsweptExecutes(s, steps, t, maxAge)
    ensures Protected(t)
  {
    UnsweptIsSafe(s, steps, t, maxAge);
    MutualExclusion(s, steps, t, maxAge);
  }

  /** A readable record younger than maxAge. */
  predicate Lasts(value: Inflight, now: int, maxAge: int) {
    value.Started? && now < value.at + maxAge
  }

  /** Live sessions, and whenever a sweeper reads the clock no run has reached maxAge. */
  ghost predicate Timely(s: State, st: Step, maxAge: int) {
    match st
    case Expire(session) => forall r :: r in s.runs ==> s.runs[r].session != session
    case SweepClock(_) =>
      forall r :: r in s.runs && s.runs[r].wallet in s.kv ==> Lasts(s.kv[s.runs[r].wallet].value, s.now, maxAge)
    case _ => true
  }

  /** Nothing comes between the halves of a release, nor between the steps of a sweep. */
  ghost predicate Undisturbed(s: State, st: Step) {
    && (forall r :: r in s.runs && s.runs[r].phase.Releasing? ==> st == ReleaseKv(r) || st == ReleaseKvFails(r))
    && (forall i :: i in s.locals && !s.locals[i].sweep.Resting? ==> SweepStep(st) && st.i == i)
  }

  ghost predicate AtomicallyExecutes(s: State, steps: seq<Step>, t: State, maxAge: int)
    decreases |steps|
  {
    if steps == [] then s == t
    else
      && Enabled(s, steps[0], maxAge) && Undisturbed(s, steps[0]) && Timely(s, steps[0], maxAge)
      && AtomicallyExecutes(Next(s, steps[0], maxAge), steps[1..], t, maxAge)
  }

  /** A list that was just taken shows what is stored. */
  ghost predicate ListsCurrent(s: State) {
    forall i, w :: i in s.locals && s.locals[i].sweep.Listed? && w in s.locals[i].sweep.listing ==>
      w in s.kv && s.kv[w].value == s.locals[i].sweep.listing[w]
  }

  lemma UndisturbedIsSafe(s: State, st: Step, maxAge: int)
    requires ListsCurrent(s) && Enabled(s, st, maxAge) && Undisturbed(s, st) && Timely(s, st, maxAge)
    ensures Safe(s, st, maxAge)
  {
  }

  lemma ListsStayCurrent(s: State, st: Step, maxAge: int)
    requires ListsCurrent(s) && Enabled(s, st, maxAge) && Undisturbed(s, st)
    ensures ListsCurrent(Next(s, st, maxAge))
  {
    if SweepStep(st) {
      SweepKeepsLists(s, st, maxAge);
    } else {
      assert forall i :: i in s.locals ==> s.locals[i].sweep.Resting?;
    }
  }

  lemma SweepKeepsLists(s: State, st: Step, maxAge: int)
    requires ListsCurrent(s) && SweepStep(st) && Enabled(s, st, maxAge) && Undisturbed(s, st)
    ensures ListsCurrent(Next(s, st, maxAge))
  {
    assert forall i :: i in s.locals && i != st.i ==> s.locals[i].sweep.Resting?;
  }

  lemma {:induction false} AtomicIsSafe(s: State, steps: seq<Step>, t: State, maxAge: int)
    requires ListsCurrent(s) && AtomicallyExecutes(s, steps, t, maxAge)
    ensures SafelyExecutes(s, steps, t, maxAge)
    decreases |steps|
  {
    if steps != [] {
      UndisturbedIsSafe(s, steps[0], maxAge);
      ListsStayCurrent(s, steps[0], maxAge);
      AtomicIsSafe(Next(s, steps[0], maxAge), steps[1..], t, maxAge);
    }
  }

  /** With releases and sweeps as one step, live sessions and timely runs are all that exclusion needs. */
  lemma MutualExclusionAtomic(s: State, steps: seq<Step>, t: State, maxAge: int)
    requires Init(s) && AtomicallyExecutes(s, steps, t, maxAge)
    ensures Protected(t)
  {
    AtomicIsSafe(s, steps, t, maxAge);
    MutualExclusion(s, steps, t, maxAge);
  }
}

/** The periodic ECDH re-broadcast loop (pkg/mpc/dynamic_registry.go). */
module Broadcast {
  import opened Ordering

  const GRACE: int := 30_000_000_000

  /**
    A tick of the loop: the mesh and the keys it sees, the time at which a grace period
    would start and the later time at which its end is checked.  Or a stop signal.
   */
  datatype Event = Stop | Tick(mesh: set<string>, keys: set<string>, startedAt: int, checkedAt: int)

  datatype Exit = Stopped(at: nat) | GraceEnded(at: nat) | StillRunning

  /** Every mesh peer has a key, and there is one. */
  predicate Full(e: Event) {
    e.Tick? && e.mesh != {} && e.mesh <= e.keys
  }

  /** Where the unbroken run of full ticks that ends at k began. */
  function RunStart(es: seq<Event>, k: nat): (j: nat)
    requires k < |es| && Full(es[k])
    ensures j <= k && Full(es[j]) && (j == 0 || !Full(es[j - 1]))
    ensures forall i :: j <= i <= k ==> Full(es[i])
  {
    if k == 0 || !Full(es[k - 1]) then k else RunStart(es, k - 1)
  }

  /** The unbroken run of full ticks ending at k spans more than the grace period. */
  predicate Expired(es: seq<Event>, k: nat)
    requires k < |es|
  {
    Full(es[k]) && es[RunStart(es, k)].startedAt + GRACE < es[k].checkedAt
  }

  /** Every tick from j to k saw a mesh, and a key for each of its peers. */
  ghost predicate KeyedThroughout(es: seq<Event>, j: nat, k: nat)
    requires k < |es|
  {
    forall i :: j <= i <= k ==> es[i].Tick? && es[i].mesh != {} && es[i].mesh <= es[i].keys
  }

  /** The longest such run of ticks that ends at k starts at j. */
  ghost predicate LongestRun(es: seq<Event>, j: nat, k: nat)
    requires k < |es|
  {
    j <= k && KeyedThroughout(es, j, k) && (j > 0 ==> !KeyedThroughout(es, j - 1, k))
  }

  lemma RunStartLongest(es: seq<Event>, k: nat, j: nat)
    requires k < |es|
    ensures LongestRun(es, j, k) <==> Full(es[k]) && j == RunStart(es, k)
  {
    assert KeyedThroughout(es, j, k) && j <= k ==> Full(es[k]);
    if Full(es[k]) {
      var start := RunStart(es, k);
      assert forall i: nat :: start <= i ==> KeyedThroughout(es, i, k);
      assert start > 0 ==> !Full(es[start - 1]);
      assert forall i: nat :: i < start ==> !KeyedThroughout(es, i, k);
    }
  }

  /** The grace period is over when the longest run of keyed ticks ending at k spans more than thirty seconds. */
  lemma ExpiredIff(es: seq<Event>, k: nat, j: nat)
    requires k < |es|
    ensures LongestRun(es, j, k) ==> (Expired(es, k) <==> es[j].startedAt + 30 * 1_000_000_000 < es[k].checkedAt)
    ensures Expired(es, k) ==> LongestRun(es, RunStart(es, k), k)
  {
    RunStartLongest(es, k, j);
    if Full(es[k]) {
      RunStartLongest(es, k, RunStart(es, k));
    }
  }

  predicate Quiet(es: seq<Event>, k: nat)
    requires k <= |es|
  {
    forall i :: 0 <= i < k ==> es[i].Tick? && !Expired(es, i)
  }

  /** The loop ends by grace at the first tick whose unbroken full run spans the grace period, and only there. */
  method PeriodicBroadcast(es: seq<Event>) returns (exit: Exit, broadcasts: nat)
    ensures exit.GraceEnded? ==> exit.at < |es| && Expired(es, exit.at) && Quiet(es, exit.at)
    ensures exit.Stopped? ==> exit.at < |es| && es[exit.at].Stop? && Quiet(es, exit.at)
    ensures exit.StillRunning? ==> Quiet(es, |es|)
    ensures broadcasts == if exit.StillRunning? then |es| else exit.at
    ensures forall i :: 0 <= i < broadcasts ==> es[i].Tick?
  {
    var graceActive, graceDeadline := false, 0;
    broadcasts := 0;
    for i := 0 to |es|
      invariant broadcasts == i && Quiet(es, i)
      invariant graceActive <==> i > 0 && Full(es[i - 1])
      invariant graceActive ==> graceDeadline == es[RunStart(es, i - 1)].startedAt + GRACE
    {
      if es[i].Stop? {
        return Stopped(i), broadcasts;
      }
      var expected, completed := |es[i].mesh|, |es[i].mesh * es[i].keys|;
      CountsFull(es[i].mesh, es[i].keys);
      if expected > 0 && completed >= expected {
        if !graceActive {
          graceActive := true;
          graceDeadline := es[i].startedAt + GRACE;
        }
        if graceDeadline < es[i].checkedAt {
          return GraceEnded(i), broadcasts;
        }
      } else if graceActive {
        graceActive := false;
      }
      broadcasts := broadcasts + 1;
    }
    return StillRunning, broadcasts;
  }

  // ----- at most one loop -----

  /** The atomic flag and the loops that have not yet cleared it on exit. */
  datatype Loops = Loops(flag: int, alive: set<nat>, started: nat)

  datatype Step = Ensure | Exits(loop: nat)

  predicate Enabled(s: Loops, st: Step) {
    st.Exits? ==> st.loop in s.alive
  }

  function Next(s: Loops, st: Step): Loops
    requires Enabled(s, st)
  {
    match st
    case Ensure => if s.flag == 0 then Loops(1, s.alive + {s.started}, s.started + 1) else s
    case Exits(l) => s.(flag := 0, alive := s.alive - {l})
  }

  ghost predicate Executes(s: Loops, steps: seq<Step>, t: Loops)
    decreases |steps|
  {
    if steps == [] then s == t else Enabled(s, steps[0]) && Executes(Next(s, steps[0]), steps[1..], t)
  }

  /** In every interleaving of restarts and exits at most one loop is alive, and the flag says whether. */
  lemma {:induction false} AtMostOneLoop(s: Loops, steps: seq<Step>, t: Loops)
    requires |s.alive| <= 1 && s.flag == |s.alive| && Executes(s, steps, t)
    ensures |t.alive| <= 1 && t.flag == |t.alive|
    decreases |steps|
  {
    if steps != [] {
      if steps[0].Exits? {
        assert s.alive == {steps[0].loop} by {
          assert s.alive == {steps[0].loop} + (s.alive - {steps[0].loop});
        }
      }
      AtMostOneLoop(Next(s, steps[0]), steps[1..], t);
    }
  }

  /** Asking for the loop leaves exactly one alive, and an exit leaves none. */
  lemma EnsureStarts(s: Loops, l: nat)
    requires |s.alive| <= 1 && s.flag == |s.alive|
    ensures |Next(s, Ensure).alive| == 1 && (s.alive != {} ==> Next(s, Ensure) == s)
    ensures l in s.alive ==> Next(s, Exits(l)).alive == {} && Next(s, Exits(l)).flag == 0
  {
    if s.alive == {} {
      assert Next(s, Ensure).alive == {s.started};
    }
    if l in s.alive {
      assert s.alive == {l} + (s.alive - {l});
    }
  }
}

/**
 * The counting barrier (rt_thread_barrier) and the run barrier of the
 * sleepable thread pool (rt_thread_run_barrier), threads.c.
 *
 * Only the locked bookkeeping of one arrival is modelled: the caller's
 * `while (phase == my_phase) cond_wait` loop, which blocks until the phase
 * flips, is left to the scheduler. An arrival either completes the phase
 * (and learns the published value at once) or waits for that flip.
 */
module Barriers {
  import opened Wrappers

  /** The fields of rt_barrier_t (the mutex and condition variable aside). */
  datatype CountingState = CountingState(nClients: int, nWaiting: int, phase: int, sum: int, result: int)

  /** The bookkeeping invariant of a counting barrier between arrivals. */
  predicate CountingValid(b: CountingState)
  {
    && b.nClients >= 1
    && 0 <= b.nWaiting < b.nClients
    && (b.phase == 0 || b.phase == 1)
    && (b.nWaiting == 0 ==> b.sum == 0)
  }

  /**
   * One arrival: the phase the caller arrived in, and, when it was the
   * last participant, the value it returns (the other callers return the
   * same value once they wake up).
   */
  datatype CountingArrival = CountingArrival(next: CountingState, myPhase: int, released: Option<int>)

  /** The locked part of rt_thread_barrier(barrier, increment). */
  function CountingStep(b: CountingState, increment: int): (r: CountingArrival)
    requires CountingValid(b)
    ensures CountingValid(r.next)
    ensures r.myPhase == b.phase
    ensures r.next.nClients == b.nClients
  {
    var sum := b.sum + increment;
    var waiting := b.nWaiting + 1;
    if waiting == b.nClients then
      CountingArrival(b.(result := sum, sum := 0, nWaiting := 0, phase := 1 - b.phase), b.phase, Some(sum))
    else
      CountingArrival(b.(sum := sum, nWaiting := waiting), b.phase, None)
  }

  function Sum(xs: seq<int>): int
  {
    if xs == [] then 0 else xs[0] + Sum(xs[1..])
  }

  /** The barrier after a sequence of arrivals with the given increments. */
  function Arrivals(b: CountingState, incs: seq<int>): (r: CountingState)
    requires CountingValid(b)
    ensures CountingValid(r) && r.nClients == b.nClients
    decreases |incs|
  {
    if incs == [] then b else Arrivals(CountingStep(b, incs[0]).next, incs[1..])
  }

  /**
   * Arrivals that do not complete the phase only count and accumulate: no
   * one is released and the phase stays.
   */
  lemma {:induction false} ArrivalsAccumulate(b: CountingState, incs: seq<int>)
    requires CountingValid(b) && b.nWaiting + |incs| < b.nClients
    ensures Arrivals(b, incs) == b.(nWaiting := b.nWaiting + |incs|, sum := b.sum + Sum(incs))
    ensures forall i :: 0 <= i < |incs| ==> CountingStep(Arrivals(b, incs[..i]), incs[i]).released == None
    decreases |incs|
  {
    if incs != [] {
      var b' := CountingStep(b, incs[0]).next;
      ArrivalsAccumulate(b', incs[1..]);
      forall i | 0 <= i < |incs|
        ensures CountingStep(Arrivals(b, incs[..i]), incs[i]).released == None
      {
        if i > 0 {
          assert incs[..i][1..] == incs[1..][..i - 1];
          assert incs[i] == incs[1..][i - 1];
        }
      }
    }
  }

  /**
   * A full phase: when nClients participants arrive at a barrier where no
   * one waits, the last one flips the phase, resets the counters and
   * publishes the sum of all increments as the result.
   */
  lemma PhaseCompletes(b: CountingState, incs: seq<int>)
    requires CountingValid(b) && b.nWaiting == 0 && |incs| == b.nClients
    ensures Arrivals(b, incs) == b.(phase := 1 - b.phase, result := Sum(incs), sum := 0, nWaiting := 0)
    ensures CountingStep(Arrivals(b, incs[..|incs| - 1]), incs[|incs| - 1]).released == Some(Sum(incs))
  {
    var n := |incs|;
    var front := incs[..n - 1];
    ArrivalsAccumulate(b, front);
    ArrivalsSplit(b, front, incs[n - 1]);
    SumSplit(front, incs[n - 1]);
    assert front + [incs[n - 1]] == incs;
  }

  lemma {:induction false} ArrivalsSplit(b: CountingState, front: seq<int>, last: int)
    requires CountingValid(b)
    ensures Arrivals(b, front + [last]) == CountingStep(Arrivals(b, front), last).next
    decreases |front|
  {
    if front != [] {
      assert (front + [last])[1..] == front[1..] + [last];
      ArrivalsSplit(CountingStep(b, front[0]).next, front[1..], last);
    } else {
      assert ([] + [last])[1..] == [];
    }
  }

  lemma {:induction false} SumSplit(front: seq<int>, last: int)
    ensures Sum(front + [last]) == Sum(front) + last
  {
    if front != [] {
      assert (front + [last])[1..] == front[1..] + [last];
      SumSplit(front[1..], last);
    } else {
      assert ([] + [last])[1..] == [];
    }
  }

  /** A counting barrier object. */
  class CountingBarrier {
    var nClients: int
    var nWaiting: int
    var phase: int
    var sum: int
    var result: int

    function State(): CountingState
      reads this
    {
      CountingState(nClients, nWaiting, phase, sum, result)
    }

    ghost predicate Valid()
      reads this
    {
      CountingValid(State())
    }

    /** rt_thread_barrier_init, for a positive number of participants. */
    constructor (n: int)
      requires n >= 1
      ensures Valid()
      ensures nClients == n && nWaiting == 0 && phase == 0 && sum == 0
    {
      nClients, nWaiting, phase, sum := n, 0, 0, 0;
    }

    /** The locked step of rt_thread_barrier. */
    method Arrive(increment: int) returns (myPhase: int, released: Option<int>)
      requires Valid()
      modifies this
      ensures Valid()
      ensures CountingArrival(State(), myPhase, released) == CountingStep(old(State()), increment)
    {
      myPhase := phase;
      sum := sum + increment;
      nWaiting := nWaiting + 1;
      released := None;
      if nWaiting == nClients {
        result := sum;
        sum := 0;
        nWaiting := 0;
        phase := 1 - myPhase;
        released := Some(result);
      }
    }
  }

  /**
   * The fields of rt_run_barrier_t. `F` stands for a work-function pointer
   * and `P` for a parameter pointer; None is NULL.
   */
  datatype RunState<F, P> = RunState(
    nClients: int, nWaiting: int, phase: int,
    fctn: Option<F>, parms: Option<P>,
    rslt: Option<F>, rsltparms: Option<P>)

  predicate RunValid<F, P>(b: RunState<F, P>)
  {
    && b.nClients >= 1
    && 0 <= b.nWaiting < b.nClients
    && (b.phase == 0 || b.phase == 1)
  }

  /** The job a released caller runs: the function and its parameters. */
  datatype Job<F, P> = Job(fctn: Option<F>, parms: Option<P>)

  datatype RunArrival<F, P> = RunArrival(next: RunState<F, P>, myPhase: int, released: Option<Job<F, P>>)

  /** The locked part of rt_thread_run_barrier(barrier, fctn, parms, ...). */
  function RunStep<F, P>(b: RunState<F, P>, fctn: Option<F>, parms: Option<P>): (r: RunArrival<F, P>)
    requires RunValid(b)
    ensures RunValid(r.next)
    ensures r.myPhase == b.phase
    ensures r.next.nClients == b.nClients
  {
    var f := if fctn.Some? then fctn else b.fctn;
    var p := if parms.Some? then parms else b.parms;
    var waiting := b.nWaiting + 1;
    if waiting == b.nClients then
      RunArrival(b.(rslt := f, rsltparms := p, fctn := None, parms := None, nWaiting := 0, phase := 1 - b.phase),
                 b.phase, Some(Job(f, p)))
    else
      RunArrival(b.(fctn := f, parms := p, nWaiting := waiting), b.phase, None)
  }

  /** The last non-NULL entry of `xs`, or `dflt` if there is none. */
  function Latest<T>(dflt: Option<T>, xs: seq<Option<T>>): Option<T>
    decreases |xs|
  {
    if xs == [] then dflt else Latest(if xs[0].Some? then xs[0] else dflt, xs[1..])
  }

  /** The run barrier after a sequence of arrivals posting the given jobs. */
  function RunArrivals<F, P>(b: RunState<F, P>, jobs: seq<Job<F, P>>): (r: RunState<F, P>)
    requires RunValid(b)
    ensures RunValid(r) && r.nClients == b.nClients
    decreases |jobs|
  {
    if jobs == [] then b else RunArrivals(RunStep(b, jobs[0].fctn, jobs[0].parms).next, jobs[1..])
  }

  function Fctns<F, P>(jobs: seq<Job<F, P>>): seq<Option<F>>
  {
    seq(|jobs|, i requires 0 <= i < |jobs| => jobs[i].fctn)
  }

  function Parms<F, P>(jobs: seq<Job<F, P>>): seq<Option<P>>
  {
    seq(|jobs|, i requires 0 <= i < |jobs| => jobs[i].parms)
  }

  /**
   * Arrivals short of the last only count and remember the most recent
   * non-NULL function and parameters.
   */
  lemma {:induction false} RunArrivalsRemember<F, P>(b: RunState<F, P>, jobs: seq<Job<F, P>>)
    requires RunValid(b) && b.nWaiting + |jobs| < b.nClients
    ensures RunArrivals(b, jobs) == b.(nWaiting := b.nWaiting + |jobs|,
                                       fctn := Latest(b.fctn, Fctns(jobs)),
                                       parms := Latest(b.parms, Parms(jobs)))
    decreases |jobs|
  {
    if jobs != [] {
      var b' := RunStep(b, jobs[0].fctn, jobs[0].parms).next;
      RunArrivalsRemember(b', jobs[1..]);
      assert Fctns(jobs)[1..] == Fctns(jobs[1..]);
      assert Parms(jobs)[1..] == Parms(jobs[1..]);
    }
  }

  /**
   * A full phase of the run barrier: the last arrival moves the most
   * recently posted non-NULL function and parameters to rslt/rsltparms,
   * which every participant then returns, and clears the posted ones.
   */
  lemma RunPhaseCompletes<F, P>(b: RunState<F, P>, jobs: seq<Job<F, P>>)
    requires RunValid(b) && b.nWaiting == 0 && |jobs| == b.nClients
    ensures var n := |jobs|;
      var a := RunStep(RunArrivals(b, jobs[..n - 1]), jobs[n - 1].fctn, jobs[n - 1].parms);
      && a.released == Some(Job(Latest(b.fctn, Fctns(jobs)), Latest(b.parms, Parms(jobs))))
      && a.next == b.(phase := 1 - b.phase, nWaiting := 0, fctn := None, parms := None,
                      rslt := Latest(b.fctn, Fctns(jobs)), rsltparms := Latest(b.parms, Parms(jobs)))
  {
    var n := |jobs|;
    var front := jobs[..n - 1];
    RunArrivalsRemember(b, front);
    LatestSplit(b.fctn, Fctns(front), jobs[n - 1].fctn);
    LatestSplit(b.parms, Parms(front), jobs[n - 1].parms);
    JobsSnoc(jobs);
  }

  /** The functions and parameters of all jobs are those of all but the last, then the last one's. */
  lemma JobsSnoc<F, P>(jobs: seq<Job<F, P>>)
    requires |jobs| > 0
    ensures Fctns(jobs[..|jobs| - 1]) + [jobs[|jobs| - 1].fctn] == Fctns(jobs)
    ensures Parms(jobs[..|jobs| - 1]) + [jobs[|jobs| - 1].parms] == Parms(jobs)
  {
    var n := |jobs|;
    assert forall i :: 0 <= i < n ==> (Fctns(jobs[..n - 1]) + [jobs[n - 1].fctn])[i] == Fctns(jobs)[i];
    assert forall i :: 0 <= i < n ==> (Parms(jobs[..n - 1]) + [jobs[n - 1].parms])[i] == Parms(jobs)[i];
  }

  lemma {:induction false} LatestSplit<T>(dflt: Option<T>, front: seq<Option<T>>, last: Option<T>)
    ensures Latest(dflt, front + [last]) == if last.Some? then last else Latest(dflt, front)
    decreases |front|
  {
    if front != [] {
      assert (front + [last])[1..] == front[1..] + [last];
      LatestSplit(if front[0].Some? then front[0] else dflt, front[1..], last);
    } else {
      assert ([] + [last])[1..] == [];
    }
  }

  /** rt_thread_run_barrier_poll: 1 exactly when all participants but one are waiting. */
  function PollResult<F, P>(b: RunState<F, P>): (rc: int)
    ensures rc == 1 <==> b.nWaiting == b.nClients - 1
    ensures rc == 0 || rc == 1
  {
    if b.nWaiting == b.nClients - 1 then 1 else 0
  }

  /** A run barrier object. */
  class RunBarrier<F, P> {
    var nClients: int
    var nWaiting: int
    var phase: int
    var fctn: Option<F>
    var parms: Option<P>
    var rslt: Option<F>
    var rsltparms: Option<P>

    function State(): RunState<F, P>
      reads this
    {
      RunState(nClients, nWaiting, phase, fctn, parms, rslt, rsltparms)
    }

    ghost predicate Valid()
      reads this
    {
      RunValid(State())
    }

    /**
     * rt_thread_run_barrier_init. The source sets no parameter or result
     * pointers here; the thread pool zeroes them beforehand, so they start NULL.
     */
    constructor (n: int)
      requires n >= 1
      ensures Valid()
      ensures State() == RunState(n, 0, 0, None, None, None, None)
    {
      nClients, nWaiting, phase := n, 0, 0;
      fctn, parms, rslt, rsltparms := None, None, None, None;
    }

    /** The locked step of rt_thread_run_barrier. */
    method Arrive(f: Option<F>, p: Option<P>) returns (myPhase: int, released: Option<Job<F, P>>)
      requires Valid()
      modifies this
      ensures Valid()
      ensures RunArrival(State(), myPhase, released) == RunStep(old(State()), f, p)
    {
      myPhase := phase;
      if f.Some? {
        fctn := f;
      }
      if p.Some? {
        parms := p;
      }
      nWaiting := nWaiting + 1;
      released := None;
      if nWaiting == nClients {
        rslt := fctn;
        rsltparms := parms;
        fctn := None;
        parms := None;
        nWaiting := 0;
        phase := 1 - myPhase;
        released := Some(Job(rslt, rsltparms));
      }
    }

    /** rt_thread_run_barrier_poll. */
    method Poll() returns (rc: int)
      requires Valid()
      ensures rc == PollResult(State())
    {
      rc := 0;
      if nWaiting == nClients - 1 {
        rc := 1;
      }
    }
  }
}

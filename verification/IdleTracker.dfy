/**
 The host-wide runnable-task tracker (global_running_tracker.bpf.c). It logs the number of
 running tasks at every context switch and, each tick, uses one boundary sample both to end
 a window and to start the next.
 */
module IdleTracker {
  import opened MachineInts
  import opened WeightedAverage
  import opened SampleBuffers
  import opened SampleIntegral

  const CAPACITY: nat := 3000

  datatype Event = Take(count: s64, now: u64) | Boundary(count: s64, now: u64)

  /** struct global_runnx_tracker_state. */
  datatype State = State(buffers: Buffers, nbCpus: u32, runningAvg: u64, lastIdleAvg: u64)

  function Initial(nbCpus: u32): State {
    State(Fresh(CAPACITY), nbCpus, 0, 0)
  }

  /** The buffers when the timer callback is about to average: one sample on both sides. */
  function Cut(b: Buffers, count: s64, now: u64): (r: Buffers)
    requires b.phase.Quiet?
    ensures r.phase.Ended?
  {
    Closing(b, Sample(count, now), Sample(count, now))
  }

  function Idle(avg: u64, nbCpus: u32): u64 {
    if avg > nbCpus then 0 else nbCpus - avg
  }

  function ApplyEvent(s: State, e: Event): (r: State)
    requires s.buffers.phase.Quiet?
    ensures r.buffers.phase.Quiet? && r.nbCpus == s.nbCpus
  {
    match e
    case Take(count, now) => s.(buffers := Step(s.buffers, Append(Sample(count, now))))
    case Boundary(count, now) =>
      var closing := Cut(s.buffers, count, now);
      var avg := AsU64(TickAverage(closing));
      State(Step(closing, Average), s.nbCpus, avg, Idle(avg, s.nbCpus))
  }

  function Exec(nbCpus: u32, events: seq<Event>): (r: State)
    ensures r.buffers.phase.Quiet? && r.nbCpus == nbCpus
  {
    if |events| == 0 then Initial(nbCpus) else ApplyEvent(Exec(nbCpus, events[..|events| - 1]), events[|events| - 1])
  }

  // ---------------------------------------------------------------- time is conserved

  /** The sample buffers alone; the published averages never feed back into them. */
  function Logged(b: Buffers, e: Event): (r: Buffers)
    requires b.phase.Quiet?
    ensures r.phase.Quiet? && |r.one.entries| == |b.one.entries|
  {
    match e
    case Take(count, now) => Step(b, Append(Sample(count, now)))
    case Boundary(count, now) => Step(Cut(b, count, now), Average)
  }

  ghost function Buffered(events: seq<Event>): (r: Buffers)
    ensures r.phase.Quiet? && |r.one.entries| == CAPACITY
  {
    if |events| == 0 then Fresh(CAPACITY) else Logged(Buffered(events[..|events| - 1]), events[|events| - 1])
  }

  lemma {:induction false} ExecLogs(nbCpus: u32, events: seq<Event>)
    ensures Exec(nbCpus, events).buffers == Buffered(events)
  {
    if |events| == 0 {
    } else {
      ExecLogs(nbCpus, events[..|events| - 1]);
    }
  }

  ghost predicate Monotone(events: seq<Event>) {
    forall i, j :: 0 <= i <= j < |events| ==> events[i].now <= events[j].now
  }

  /** How many samples the open window holds. */
  ghost function WindowSize(events: seq<Event>): nat {
    if |events| == 0 then 0
    else if events[|events| - 1].Boundary? then 1
    else WindowSize(events[..|events| - 1]) + 1
  }

  /** When the open window started. */
  ghost function WindowStart(events: seq<Event>): u64
    requires |events| > 0
  {
    if |events| == 1 || events[|events| - 1].Boundary? then events[|events| - 1].now
    else WindowStart(events[..|events| - 1])
  }

  /** Every window that was closed fits its array, end sample included. */
  ghost predicate NoOverflow(events: seq<Event>) {
    forall k :: 0 <= k < |events| && events[k].Boundary? ==> WindowSize(events[..k]) < CAPACITY
  }

  /** Sum of the total_time of every window closed so far, as the callbacks accumulated it. */
  ghost function Elapsed(events: seq<Event>): nat {
    if |events| == 0 then 0 else
    var before, e := events[..|events| - 1], events[|events| - 1];
    Elapsed(before) + if e.Boundary? then TickTime(Cut(Buffered(before), e.count, e.now)) else 0
  }

  /** The samples taken since the last boundary, which is the first of them. */
  ghost function OpenSamples(events: seq<Event>): seq<Sample> {
    if |events| == 0 then [] else
    match events[|events| - 1]
    case Take(count, now) => OpenSamples(events[..|events| - 1]) + [Sample(count, now)]
    case Boundary(count, now) => [Sample(count, now)]
  }

  ghost function WindowsOf(events: seq<Event>): Windows {
    if |events| == 0 then NO_WINDOWS else
    var w := WindowsOf(events[..|events| - 1]);
    match events[|events| - 1]
    case Take(count, now) => AbstractStep(w, Append(Sample(count, now)))
    case Boundary(count, now) =>
      var s := Sample(count, now);
      Windows(Window([s], [], []), NO_SAMPLES, NO_SAMPLES, [], w.closed + [w.open.(end := [s])])
  }

  /** In every run, whatever the clock does, the open window is the samples taken since the last boundary. */
  lemma {:induction false} RunFollows(events: seq<Event>)
    ensures Refines(Buffered(events), WindowsOf(events)) && WindowsOf(events).open.Samples() == OpenSamples(events)
  {
    if |events| == 0 {
    } else {
      var before, e := events[..|events| - 1], events[|events| - 1];
      RunFollows(before);
      var b, w, s := Buffered(before), WindowsOf(before), Sample(e.count, e.now);
      if e.Take? {
        StepRefines(b, w, Append(s));
        assert AbstractStep(w, Append(s)).open.Samples() == w.open.Samples() + [s];
      } else {
        ClosingRefines(b, w, s, s);
        assert Window([s], [], []).Samples() == [s];
      }
    }
  }

  /** The open window in terms of the events' times. */
  lemma {:induction false} OpenSamplesShape(events: seq<Event>)
    requires Monotone(events)
    ensures var w := OpenSamples(events);
      && |w| == WindowSize(events) && Sorted(w)
      && (forall i :: 0 <= i < |w| ==> |events| > 0 && w[i].timestamp <= events[|events| - 1].now)
      && (|events| > 0 ==> |w| > 0 && w[0].timestamp == WindowStart(events))
  {
    if |events| == 0 {
    } else {
      var before := events[..|events| - 1];
      MonotonePrefix(events, |events| - 1);
      OpenSamplesShape(before);
      assert |before| > 0 ==> before[|before| - 1].now <= events[|events| - 1].now;
    }
  }

  lemma MonotonePrefix(events: seq<Event>, n: nat)
    requires Monotone(events) && n <= |events|
    ensures Monotone(events[..n])
  {
    assert forall i :: 0 <= i < n ==> events[..n][i] == events[i];
  }

  lemma NoOverflowPrefix(events: seq<Event>, n: nat)
    requires NoOverflow(events) && n <= |events|
    ensures NoOverflow(events[..n])
  {
    assert forall k :: 0 <= k < n ==> events[..n][..k] == events[..k];
  }

  /** The samples of the window a boundary closes. */
  ghost function ClosedSamples(events: seq<Event>, count: s64, now: u64): seq<Sample> {
    OpenSamples(events) + [Sample(count, now)]
  }

  /** Averaging and adding up, the callback reads the covered samples of the window it closes. */
  lemma CutReadsWindow(events: seq<Event>, count: s64, now: u64)
    requires |OpenSamples(events)| < TWO_32
    ensures var c := Covered(ClosedSamples(events, count, now), CAPACITY);
      && TickTime(Cut(Buffered(events), count, now)) == TotalTime(c, |c| - 1)
      && TickAverage(Cut(Buffered(events), count, now)) == MachineMean(c, |c| - 1)
  {
    var b, w, s := Buffered(events), WindowsOf(events), Sample(count, now);
    RunFollows(events);
    var retired := w.open.(end := [s]);
    assert retired.Samples() == ClosedSamples(events, count, now);
    ClosingRefines(b, w, s, s);
    var closing := Windows(Window([s], [], []), NO_SAMPLES, retired, [s], w.closed);
    TimeIsOfWindow(Cut(b, count, now), closing, CAPACITY);
    AverageIsOfWindow(Cut(b, count, now), closing, CAPACITY);
  }

  lemma MonotoneBefore(events: seq<Event>, e: Event)
    requires Monotone(events + [e])
    ensures Monotone(events) && (|events| > 0 ==> events[|events| - 1].now <= e.now)
  {
    var all := events + [e];
    assert forall i :: 0 <= i < |events| ==> all[i] == events[i];
    assert |events| > 0 ==> all[|events| - 1].now <= all[|events|].now;
  }

  lemma SortedAppend(w: seq<Sample>, s: Sample)
    requires Sorted(w) && forall i :: 0 <= i < |w| ==> w[i].timestamp <= s.timestamp
    ensures Sorted(w + [s])
  {
  }

  lemma ClosedSorted(events: seq<Event>, count: s64, now: u64)
    requires Monotone(events + [Boundary(count, now)])
    ensures Monotone(events) && Sorted(ClosedSamples(events, count, now))
    ensures |events| > 0 ==> ClosedSamples(events, count, now)[0].timestamp == WindowStart(events)
  {
    MonotoneBefore(events, Boundary(count, now));
    OpenSamplesShape(events);
    SortedAppend(OpenSamples(events), Sample(count, now));
  }

  lemma ClosedLength(events: seq<Event>, count: s64, now: u64)
    requires Monotone(events + [Boundary(count, now)]) && WindowSize(events) < CAPACITY
    ensures var all := ClosedSamples(events, count, now);
      && Covered(all, CAPACITY) == all
      && TotalTime(all, |all| - 1) == if |events| == 0 then 0 else now - WindowStart(events)
  {
    var all := ClosedSamples(events, count, now);
    ClosedSorted(events, count, now);
    OpenSamplesShape(events);
    assert all[..|all|] == all;
    SortedWindowLength(all, |all| - 1);
  }

  /** A window that fits its array accumulates exactly its length. */
  lemma CutAccumulates(events: seq<Event>, count: s64, now: u64, length: int)
    requires Monotone(events + [Boundary(count, now)]) && WindowSize(events) < CAPACITY
    requires length == if |events| == 0 then 0 else now - WindowStart(events)
    ensures TickTime(Cut(Buffered(events), count, now)) == length
  {
    ClosedLength(events, count, now);
    CutReadsWindow(events, count, now);
  }

  /** No time is lost or counted twice: the closed windows add up to the time since the first event. */
  lemma {:induction false} ClosedWindowsCoverTime(events: seq<Event>)
    requires Monotone(events) && NoOverflow(events) && |events| > 0
    ensures Elapsed(events) == WindowStart(events) - events[0].now
  {
    var before, e := events[..|events| - 1], events[|events| - 1];
    MonotonePrefix(events, |events| - 1);
    NoOverflowPrefix(events, |events| - 1);
    if |before| == 0 {
    } else {
      ClosedWindowsCoverTime(before);
    }
    if e.Boundary? {
      assert before + [e] == events;
      CutAccumulates(before, e.count, e.now, if |before| == 0 then 0 else e.now - WindowStart(before));
    }
  }

  lemma ElapsedAtBoundary(events: seq<Event>, k: nat)
    requires Monotone(events) && NoOverflow(events) && k < |events| && events[k].Boundary?
    ensures Elapsed(events[..k + 1]) == events[k].now - events[0].now
  {
    MonotonePrefix(events, k + 1);
    NoOverflowPrefix(events, k + 1);
    ClosedWindowsCoverTime(events[..k + 1]);
  }

  /** The total_time of any run of consecutive windows is last boundary minus first boundary. */
  lemma ConsecutiveWindows(events: seq<Event>, i: nat, j: nat)
    requires Monotone(events) && NoOverflow(events) && i <= j < |events|
    requires events[i].Boundary? && events[j].Boundary?
    ensures Elapsed(events[..j + 1]) - Elapsed(events[..i + 1]) == events[j].now - events[i].now
  {
    ElapsedAtBoundary(events, i);
    ElapsedAtBoundary(events, j);
  }

  // ---------------------------------------------------------------- what is published

  /** The run-queue count last sampled at or before nanosecond t. */
  ghost function SampledCount(events: seq<Event>, t: int): int {
    if |events| == 0 then 0
    else if events[|events| - 1].now <= t then events[|events| - 1].count
    else SampledCount(events[..|events| - 1], t)
  }

  lemma {:induction false} WindowTellsTheCount(events: seq<Event>, t: int)
    requires Monotone(events) && |events| > 0 && WindowStart(events) <= t
    ensures StepCount(OpenSamples(events), t) == SampledCount(events, t)
  {
    var before, e := events[..|events| - 1], events[|events| - 1];
    MonotonePrefix(events, |events| - 1);
    var w := OpenSamples(events);
    if e.Take? {
      assert w[..|w| - 1] == OpenSamples(before);
      if t < e.now {
        WindowTellsTheCount(before, t);
      }
    }
  }

  /** The covered samples of the closing window, read as a step function, are the sampled count. */
  lemma CoveredTellsTheCount(events: seq<Event>, count: s64, now: u64, t: int)
    requires Monotone(events + [Boundary(count, now)]) && |events| > 0
    requires var c := Covered(ClosedSamples(events, count, now), CAPACITY);
      c[0].timestamp <= t < c[|c| - 1].timestamp
    ensures StepCount(Covered(ClosedSamples(events, count, now), CAPACITY), t) == SampledCount(events, t)
  {
    var all := ClosedSamples(events, count, now);
    var c := Covered(all, CAPACITY);
    ClosedSorted(events, count, now);
    StepCountPrefix(all, |c|, t);
    assert all[..|c|] == c;
    assert all[..|all| - 1] == OpenSamples(events);
    WindowTellsTheCount(events, t);
  }

  /** When the window that a boundary at `now` closes started: at `now` itself if nothing was sampled before. */
  ghost function StartTime(events: seq<Event>, now: u64): u64 {
    if |events| == 0 then now else WindowStart(events)
  }

  /** When the last sample the callback reads was taken: at the boundary itself, unless the array overflowed. */
  ghost function StopTime(events: seq<Event>, count: s64, now: u64): u64 {
    var c := Covered(ClosedSamples(events, count, now), CAPACITY);
    c[|c| - 1].timestamp
  }

  /**
   What global_runnx_avg is: the floor of the mean of the sampled run-queue count, negative
   samples read as 0, over every nanosecond from the previous boundary to the last sample read.
   */
  lemma RunningAverageIsMean(nbCpus: u32, events: seq<Event>, count: s64, now: u64, hi: nat)
    requires Monotone(events + [Boundary(count, now)]) && WindowSize(events) < TWO_32
    requires hi < TWO_63 && hi * (StopTime(events, count, now) - StartTime(events, now)) < TWO_64
    requires forall i :: 0 <= i < |ClosedSamples(events, count, now)| ==>
      Clamp(ClosedSamples(events, count, now)[i].count) <= hi
    ensures Exec(nbCpus, events + [Boundary(count, now)]).runningAvg
         == MeanOver(t => Clamp(SampledCount(events, t)), StartTime(events, now), StopTime(events, count, now)) <= hi
    ensures WindowSize(events) < CAPACITY ==> StopTime(events, count, now) == now
  {
    var all, run := ClosedSamples(events, count, now), events + [Boundary(count, now)];
    var c := Covered(all, CAPACITY);
    ClosedSorted(events, count, now);
    OpenSamplesShape(events);
    assert c == all[..|c|];
    SortedMean(c, hi);
    forall t | c[0].timestamp <= t < c[|c| - 1].timestamp
      ensures Clamp(StepCount(c, t)) == Clamp(SampledCount(events, t))
    {
      assert |events| > 0;
      CoveredTellsTheCount(events, count, now, t);
    }
    IntegralAgrees(t => Clamp(StepCount(c, t)), t => Clamp(SampledCount(events, t)),
                   c[0].timestamp, c[|c| - 1].timestamp);
    CutReadsWindow(events, count, now);
    ExecLogs(nbCpus, events);
    assert run[..|run| - 1] == events;
    InWord(MachineMean(c, |c| - 1));
  }

  /** From the first tick on, busy and idle averages make up the machine. */
  lemma {:induction false} PublishedPairIsComplete(nbCpus: u32, events: seq<Event>)
    requires exists k :: 0 <= k < |events| && events[k].Boundary?
    ensures var s := Exec(nbCpus, events);
      s.lastIdleAvg + (if s.runningAvg < nbCpus then s.runningAvg else nbCpus) == nbCpus
  {
    if events[|events| - 1].Boundary? {
    } else {
      var k :| 0 <= k < |events| && events[k].Boundary?;
      assert events[..|events| - 1][k].Boundary?;
      PublishedPairIsComplete(nbCpus, events[..|events| - 1]);
    }
  }

  // ---------------------------------------------------------------- the source's in-place form

  class RunningTracker {
    const buffers: TrackerBuffers
    const nbCpus: u32
    var runningAvg: u64
    var lastIdleAvg: u64

    ghost predicate Valid()
      reads buffers
    {
      buffers.Valid() && buffers.phase.Quiet?
    }

    ghost function Model(): State
      reads this, buffers, buffers.buff1, buffers.buff2
    {
      State(buffers.Model(), nbCpus, runningAvg, lastIdleAvg)
    }

    constructor (nbCpus: u32)
      ensures Valid() && fresh(buffers) && fresh(buffers.buff1) && fresh(buffers.buff2)
      ensures Model() == Initial(nbCpus)
    {
      this.nbCpus, runningAvg, lastIdleAvg := nbCpus, 0, 0;
      buffers := new TrackerBuffers(CAPACITY);
    }

    method SwitchHandler(count: s64, now: u64)
      requires Valid()
      modifies buffers, buffers.buff1, buffers.buff2
      ensures Valid() && Model() == ApplyEvent(old(Model()), Take(count, now))
    {
      buffers.RecordSample(Sample(count, now));
    }

    /** idle_avg_timer_cb. */
    method TimerCallback(count: s64, now: u64)
      requires Valid()
      modifies this, buffers, buffers.buff1, buffers.buff2
      ensures Valid() && Model() == ApplyEvent(old(Model()), Boundary(count, now))
    {
      var boundary := Sample(count, now);
      var quotient := buffers.SwapAndAverage(boundary, boundary);
      var avg := AsU64(quotient);
      runningAvg := avg;
      lastIdleAvg := if avg > nbCpus then 0 else nbCpus - avg;
    }
  }
}

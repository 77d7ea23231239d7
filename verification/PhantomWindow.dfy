/**
 End to end: switch handlers move the counter and log samples, timer ticks average them.
 Handlers and ticks are single steps under a monotone clock. The reference is the counter
 itself, summed over every nanosecond of the window; it knows no buffers and no samples.
 */
module PhantomWindow {
  import opened MachineInts
  import opened WeightedAverage
  import opened SampleBuffers
  import opened SampleIntegral
  import PhantomCounter

  type Tid = PhantomCounter.Tid

  /** A counter update logged at `now`, or a tick that reads the clock for its end and start samples. */
  datatype Event = Change(up: bool, now: u64) | Tick(tEnd: u64, tStart: u64)

  /** One VM's counter and buffers. */
  datatype Tracker = Tracker(count: s64, nbVcpus: u32, buffers: Buffers)

  /** The clamped update of atomic_inc_if_lt_ceil and atomic_dec_if_pos, uncontended. */
  function Moved(count: s64, nbVcpus: u32, up: bool): s64 {
    var dir := if up then PhantomCounter.Up else PhantomCounter.Down;
    if PhantomCounter.AtClamp(dir, nbVcpus, count) then count else PhantomCounter.Target(dir, nbVcpus, count)
  }

  function ApplyEvent(m: Tracker, e: Event): (r: Tracker)
    requires m.buffers.phase.Quiet?
    ensures r.buffers.phase.Quiet? && r.nbVcpus == m.nbVcpus
  {
    match e
    case Change(up, now) =>
      var count := Moved(m.count, m.nbVcpus, up);
      m.(count := count, buffers := Step(m.buffers, Append(Sample(count, now))))
    case Tick(tEnd, tStart) =>
      m.(buffers := Step(Closing(m.buffers, Sample(m.count, tEnd), Sample(m.count, tStart)), Average))
  }

  function ExecFrom(m: Tracker, events: seq<Event>): (r: Tracker)
    requires m.buffers.phase.Quiet?
    ensures r.buffers.phase.Quiet? && r.nbVcpus == m.nbVcpus
  {
    if |events| == 0 then m else ApplyEvent(ExecFrom(m, events[..|events| - 1]), events[|events| - 1])
  }

  lemma {:induction false} ExecSplits(m: Tracker, a: seq<Event>, b: seq<Event>)
    requires m.buffers.phase.Quiet?
    ensures ExecFrom(m, a + b) == ExecFrom(ExecFrom(m, a), b)
  {
    if |b| == 0 {
      assert a + b == a;
    } else {
      assert (a + b)[..|a + b| - 1] == a + b[..|b| - 1];
      ExecSplits(m, a, b[..|b| - 1]);
    }
  }

  /** The VM as register_vm and setup_vm_maps leave it. */
  function Registered(nbVcpus: u32, capacity: nat): Tracker {
    Tracker(0, nbVcpus, Fresh(capacity))
  }

  /** The average a tick computes. */
  function TickValue(m: Tracker, tEnd: u64, tStart: u64): s64
    requires m.buffers.phase.Quiet?
  {
    TickAverage(Closing(m.buffers, Sample(m.count, tEnd), Sample(m.count, tStart)))
  }

  // ---------------------------------------------------------------- the reference

  /** The counter after a run that starts at `count`. */
  function CountFrom(count: s64, nbVcpus: u32, events: seq<Event>): s64 {
    if |events| == 0 then count else
    var c := CountFrom(count, nbVcpus, events[..|events| - 1]);
    match events[|events| - 1]
    case Change(up, _) => Moved(c, nbVcpus, up)
    case Tick(_, _) => c
  }

  lemma CountFromOne(count: s64, nbVcpus: u32, e: Event)
    ensures CountFrom(count, nbVcpus, [e]) == if e.Change? then Moved(count, nbVcpus, e.up) else count
  {
    assert [e][..0] == [];
  }

  function CountAfter(nbVcpus: u32, events: seq<Event>): s64 {
    CountFrom(0, nbVcpus, events)
  }

  /** The value of phantom_count at nanosecond t: what the last update up to t left. */
  ghost function TrueCount(nbVcpus: u32, events: seq<Event>, t: int): int {
    if |events| == 0 then 0 else
    var last := events[|events| - 1];
    if last.Change? && last.now <= t then CountAfter(nbVcpus, events)
    else TrueCount(nbVcpus, events[..|events| - 1], t)
  }

  ghost function LastTime(events: seq<Event>): u64 {
    if |events| == 0 then 0 else
    match events[|events| - 1]
    case Change(_, now) => now
    case Tick(_, tStart) => tStart
  }

  /** The clock never runs backward. */
  ghost predicate Monotone(events: seq<Event>) {
    |events| == 0 ||
    (&& Monotone(events[..|events| - 1])
     && match events[|events| - 1]
        case Change(_, now) => LastTime(events[..|events| - 1]) <= now
        case Tick(tEnd, tStart) => LastTime(events[..|events| - 1]) <= tEnd <= tStart)
  }

  /** Where the open window starts: at the last tick, else at the first update, else at tEnd. */
  ghost function WindowStart(events: seq<Event>, tEnd: u64): u64 {
    if |events| == 0 then tEnd else
    match events[|events| - 1]
    case Change(_, now) => WindowStart(events[..|events| - 1], now)
    case Tick(_, tStart) => tStart
  }

  /** How many samples the open window holds. */
  ghost function WindowSize(events: seq<Event>): nat {
    if |events| == 0 then 0 else
    match events[|events| - 1]
    case Change(_, _) => WindowSize(events[..|events| - 1]) + 1
    case Tick(_, _) => 1
  }

  // ---------------------------------------------------------------- from samples to the counter

  ghost function WindowsOf(nbVcpus: u32, events: seq<Event>): Windows {
    if |events| == 0 then NO_WINDOWS else
    var before := events[..|events| - 1];
    var w := WindowsOf(nbVcpus, before);
    match events[|events| - 1]
    case Change(_, now) => AbstractStep(w, Append(Sample(CountAfter(nbVcpus, events), now)))
    case Tick(tEnd, tStart) =>
      var c := CountAfter(nbVcpus, before);
      Windows(Window([Sample(c, tStart)], [], []), NO_SAMPLES, NO_SAMPLES, [],
              w.closed + [w.open.(end := [Sample(c, tEnd)])])
  }

  ghost function OpenSamples(nbVcpus: u32, events: seq<Event>): seq<Sample> {
    WindowsOf(nbVcpus, events).open.Samples()
  }

  lemma {:induction false} RunRefines(nbVcpus: u32, capacity: nat, events: seq<Event>)
    requires 1 <= capacity <= TWO_32
    ensures var m := ExecFrom(Registered(nbVcpus, capacity), events);
      && m.count == CountAfter(nbVcpus, events)
      && Refines(m.buffers, WindowsOf(nbVcpus, events)) && |m.buffers.one.entries| == capacity
  {
    if |events| == 0 {
    } else {
      var before, e := events[..|events| - 1], events[|events| - 1];
      RunRefines(nbVcpus, capacity, before);
      var m, w := ExecFrom(Registered(nbVcpus, capacity), before), WindowsOf(nbVcpus, before);
      match e
      case Change(up, now) => StepRefines(m.buffers, w, Append(Sample(CountAfter(nbVcpus, events), now)));
      case Tick(tEnd, tStart) => ClosingRefines(m.buffers, w, Sample(m.count, tEnd), Sample(m.count, tStart));
    }
  }

  /** How the open window's samples evolve. */
  lemma OpenSamplesStep(nbVcpus: u32, events: seq<Event>)
    requires |events| > 0
    ensures var before := events[..|events| - 1];
      OpenSamples(nbVcpus, events)
      == match events[|events| - 1]
         case Change(_, now) => OpenSamples(nbVcpus, before) + [Sample(CountAfter(nbVcpus, events), now)]
         case Tick(_, tStart) => [Sample(CountAfter(nbVcpus, before), tStart)]
  {
    OpenWindowHasNoEnd(nbVcpus, events[..|events| - 1]);
  }

  lemma {:induction false} OpenWindowHasNoEnd(nbVcpus: u32, events: seq<Event>)
    ensures WindowsOf(nbVcpus, events).open.end == []
  {
    if |events| == 0 {
    } else {
      OpenWindowHasNoEnd(nbVcpus, events[..|events| - 1]);
    }
  }

  /** Samples of the open window: sorted, in the past, with counts the counter can take. */
  ghost predicate Plausible(samples: seq<Sample>, nbVcpus: u32, last: int) {
    && Sorted(samples)
    && (forall i :: 0 <= i < |samples| ==> 0 <= samples[i].count <= nbVcpus && samples[i].timestamp <= last)
  }

  lemma PlausibleGrows(samples: seq<Sample>, nbVcpus: u32, last: int, s: Sample)
    requires Plausible(samples, nbVcpus, last) && last <= s.timestamp && 0 <= s.count <= nbVcpus
    ensures Plausible(samples + [s], nbVcpus, s.timestamp)
  {
  }

  lemma {:induction false} CountInRange(nbVcpus: u32, events: seq<Event>)
    ensures 0 <= CountAfter(nbVcpus, events) <= nbVcpus
  {
    if |events| == 0 {
    } else {
      CountInRange(nbVcpus, events[..|events| - 1]);
    }
  }

  lemma {:induction false} TrueCountInRange(nbVcpus: u32, events: seq<Event>, t: int)
    ensures 0 <= TrueCount(nbVcpus, events, t) <= nbVcpus
  {
    if |events| == 0 {
    } else {
      CountInRange(nbVcpus, events);
      TrueCountInRange(nbVcpus, events[..|events| - 1], t);
    }
  }

  lemma {:induction false} OpenPlausible(nbVcpus: u32, events: seq<Event>)
    requires Monotone(events)
    ensures Plausible(OpenSamples(nbVcpus, events), nbVcpus, LastTime(events))
  {
    if |events| == 0 {
    } else {
      var before, e := events[..|events| - 1], events[|events| - 1];
      OpenSamplesStep(nbVcpus, events);
      CountInRange(nbVcpus, events);
      CountInRange(nbVcpus, before);
      if e.Change? {
        OpenPlausible(nbVcpus, before);
        PlausibleGrows(OpenSamples(nbVcpus, before), nbVcpus, LastTime(before),
                       Sample(CountAfter(nbVcpus, events), e.now));
      }
    }
  }

  lemma {:induction false} WindowShape(nbVcpus: u32, events: seq<Event>, tEnd: u64)
    ensures var w := OpenSamples(nbVcpus, events);
      && |w| == WindowSize(events)
      && WindowStart(events, tEnd) == if |w| == 0 then tEnd else w[0].timestamp
  {
    if |events| == 0 {
    } else {
      var e := events[|events| - 1];
      WindowShape(nbVcpus, events[..|events| - 1], if e.Change? then e.now else 0);
      OpenSamplesStep(nbVcpus, events);
    }
  }

  /** Once every update is in the past, the true count is the counter's last value. */
  lemma {:induction false} TrueCountSettles(nbVcpus: u32, events: seq<Event>, t: int)
    requires Monotone(events) && LastTime(events) <= t
    ensures TrueCount(nbVcpus, events, t) == CountAfter(nbVcpus, events)
  {
    if |events| == 0 || events[|events| - 1].Change? {
    } else {
      TrueCountSettles(nbVcpus, events[..|events| - 1], t);
    }
  }

  /** From its first sample on, the open window describes the true counter at every instant. */
  lemma {:induction false} WindowTellsTheCount(nbVcpus: u32, events: seq<Event>, t: int)
    requires Monotone(events)
    requires var w := OpenSamples(nbVcpus, events); |w| > 0 && w[0].timestamp <= t
    ensures StepCount(OpenSamples(nbVcpus, events), t) == TrueCount(nbVcpus, events, t)
  {
    var before, e := events[..|events| - 1], events[|events| - 1];
    OpenSamplesStep(nbVcpus, events);
    var w, v := OpenSamples(nbVcpus, events), OpenSamples(nbVcpus, before);
    match e
    case Change(_, now) =>
      assert w[..|w| - 1] == v;
      if t < now {
        WindowTellsTheCount(nbVcpus, before, t);
      }
    case Tick(_, tStart) =>
      TrueCountSettles(nbVcpus, before, t);
  }

  // ---------------------------------------------------------------- the theorem

  /** The samples of the window a tick at tEnd closes. */
  ghost function ClosedSamples(nbVcpus: u32, events: seq<Event>, tEnd: u64): seq<Sample> {
    OpenSamples(nbVcpus, events) + [Sample(CountAfter(nbVcpus, events), tEnd)]
  }

  lemma ClosedPlausible(nbVcpus: u32, events: seq<Event>, tEnd: u64)
    requires Monotone(events) && LastTime(events) <= tEnd
    ensures Plausible(ClosedSamples(nbVcpus, events, tEnd), nbVcpus, tEnd)
  {
    OpenPlausible(nbVcpus, events);
    CountInRange(nbVcpus, events);
    PlausibleGrows(OpenSamples(nbVcpus, events), nbVcpus, LastTime(events), Sample(CountAfter(nbVcpus, events), tEnd));
  }

  /** Before its last sample, the closed window describes the true counter. */
  lemma ClosedTellsTheCount(nbVcpus: u32, events: seq<Event>, tEnd: u64, n: nat, t: int)
    requires Monotone(events) && LastTime(events) <= tEnd
    requires var w := ClosedSamples(nbVcpus, events, tEnd);
      n < |w| && w[0].timestamp <= t < w[n].timestamp
    ensures Clamp(StepCount(ClosedSamples(nbVcpus, events, tEnd), t)) == TrueCount(nbVcpus, events, t)
  {
    var w, v := ClosedSamples(nbVcpus, events, tEnd), OpenSamples(nbVcpus, events);
    ClosedPlausible(nbVcpus, events, tEnd);
    assert w[n].timestamp <= tEnd && w[..|w| - 1] == v && |v| > 0;
    WindowTellsTheCount(nbVcpus, events, t);
    TrueCountInRange(nbVcpus, events, t);
  }

  /** What the tick adds up is the true counter's integral from the window's start. */
  lemma ClosedSumIsTrueIntegral(nbVcpus: u32, events: seq<Event>, tEnd: u64, n: nat)
    requires Monotone(events) && LastTime(events) <= tEnd
    requires n < |ClosedSamples(nbVcpus, events, tEnd)|
    ensures var w := ClosedSamples(nbVcpus, events, tEnd);
      WeightedSum(w, n) == Integral(t => TrueCount(nbVcpus, events, t), w[0].timestamp, w[n].timestamp)
  {
    var w := ClosedSamples(nbVcpus, events, tEnd);
    ClosedPlausible(nbVcpus, events, tEnd);
    WeightedSumIsIntegral(w, n);
    forall t | w[0].timestamp <= t < w[n].timestamp
      ensures Clamp(StepCount(w, t)) == TrueCount(nbVcpus, events, t)
    {
      ClosedTellsTheCount(nbVcpus, events, tEnd, n, t);
    }
    IntegralAgrees(t => Clamp(StepCount(w, t)), t => TrueCount(nbVcpus, events, t), w[0].timestamp, w[n].timestamp);
  }

  /** Time of the last sample of the closing window that fits the array. */
  ghost function StopTime(nbVcpus: u32, capacity: nat, events: seq<Event>, tEnd: u64): u64
    requires capacity >= 1
  {
    var c := Covered(ClosedSamples(nbVcpus, events, tEnd), capacity);
    c[|c| - 1].timestamp
  }

  /** The floor of the mean of the true counter from a up to b. */
  ghost function TrueMean(nbVcpus: u32, events: seq<Event>, a: int, b: int): int {
    MeanOver(t => TrueCount(nbVcpus, events, t), a, b)
  }

  /** The machine's mean of the covered samples, in terms of the true counter. */
  lemma CoveredMean(nbVcpus: u32, capacity: nat, events: seq<Event>, tEnd: u64)
    requires capacity >= 1 && Monotone(events) && LastTime(events) <= tEnd
    requires nbVcpus * (StopTime(nbVcpus, capacity, events, tEnd) - WindowStart(events, tEnd)) < TWO_64
    ensures var c := Covered(ClosedSamples(nbVcpus, events, tEnd), capacity);
      && MachineMean(c, |c| - 1)
         == TrueMean(nbVcpus, events, WindowStart(events, tEnd), StopTime(nbVcpus, capacity, events, tEnd))
      && 0 <= MachineMean(c, |c| - 1) <= nbVcpus
  {
    var c := Covered(ClosedSamples(nbVcpus, events, tEnd), capacity);
    CoveredSum(nbVcpus, capacity, events, tEnd);
    PlausibleMean(c, nbVcpus, tEnd);
  }

  lemma CoveredSum(nbVcpus: u32, capacity: nat, events: seq<Event>, tEnd: u64)
    requires capacity >= 1 && Monotone(events) && LastTime(events) <= tEnd
    ensures var c := Covered(ClosedSamples(nbVcpus, events, tEnd), capacity);
      && Plausible(c, nbVcpus, tEnd)
      && c[0].timestamp == WindowStart(events, tEnd)
      && WeightedSum(c, |c| - 1) == Integral(t => TrueCount(nbVcpus, events, t), c[0].timestamp, c[|c| - 1].timestamp)
  {
    var w := ClosedSamples(nbVcpus, events, tEnd);
    var c := Covered(w, capacity);
    ClosedPlausible(nbVcpus, events, tEnd);
    WindowShape(nbVcpus, events, tEnd);
    assert c == w[..|c|];
    SumsReadPrefix(c, w, |c| - 1);
    ClosedSumIsTrueIntegral(nbVcpus, events, tEnd, |c| - 1);
  }

  /** In a sorted bounded window the machine divides the exact sum by the window's length. */
  lemma PlausibleMean(c: seq<Sample>, nbVcpus: u32, last: int)
    requires |c| > 0 && Plausible(c, nbVcpus, last)
    requires nbVcpus * (c[|c| - 1].timestamp - c[0].timestamp) < TWO_64
    ensures var length := c[|c| - 1].timestamp - c[0].timestamp;
      && MachineMean(c, |c| - 1) == (if length <= 0 then 0 else WeightedSum(c, |c| - 1) / length)
      && 0 <= MachineMean(c, |c| - 1) <= nbVcpus
  {
    var n := |c| - 1;
    assert c[..n + 1] == c && Span(c, n) == n;
    SortedWindowLength(c, n);
    assert forall k: nat :: Contributes(c, n, k) ==> Clamp(c[k].count) <= nbVcpus;
    assert Bounded(c, n, nbVcpus, TWO_64);
    MachineMeanExact(c, n, nbVcpus);
  }

  /** The concrete tick averages the covered samples of the abstract window it closes. */
  lemma TickIsCoveredMean(nbVcpus: u32, capacity: nat, events: seq<Event>, tEnd: u64, tStart: u64)
    requires 1 <= capacity <= TWO_32 && WindowSize(events) < TWO_32
    ensures var c := Covered(ClosedSamples(nbVcpus, events, tEnd), capacity);
      TickValue(ExecFrom(Registered(nbVcpus, capacity), events), tEnd, tStart) == MachineMean(c, |c| - 1)
  {
    var m, w := ExecFrom(Registered(nbVcpus, capacity), events), WindowsOf(nbVcpus, events);
    var end, start := Sample(m.count, tEnd), Sample(m.count, tStart);
    RunRefines(nbVcpus, capacity, events);
    WindowShape(nbVcpus, events, tEnd);
    OpenWindowHasNoEnd(nbVcpus, events);
    var retired := w.open.(end := [end]);
    assert retired.Samples() == ClosedSamples(nbVcpus, events, tEnd);
    ClosingRefines(m.buffers, w, end, start);
    AverageIsOfWindow(Closing(m.buffers, end, start),
                      Windows(Window([start], [], []), NO_SAMPLES, retired, [end], w.closed), capacity);
  }

  /**
   In every run of handlers and ticks, a tick's average is the floor of the true counter
   summed over every nanosecond from the window's start to the last sample that fits the
   array, divided by that length; it is 0 for a window without length.
   */
  lemma TickAveragesTrueCount(nbVcpus: u32, capacity: nat, events: seq<Event>, tEnd: u64, tStart: u64)
    requires 1 <= capacity <= TWO_32 && Monotone(events + [Tick(tEnd, tStart)])
    requires WindowSize(events) < TWO_32
    requires nbVcpus * (StopTime(nbVcpus, capacity, events, tEnd) - WindowStart(events, tEnd)) < TWO_64
    ensures var m := ExecFrom(Registered(nbVcpus, capacity), events);
      && TickValue(m, tEnd, tStart)
         == TrueMean(nbVcpus, events, WindowStart(events, tEnd), StopTime(nbVcpus, capacity, events, tEnd))
      && 0 <= TickValue(m, tEnd, tStart) <= nbVcpus
    ensures WindowSize(events) < capacity ==> StopTime(nbVcpus, capacity, events, tEnd) == tEnd
  {
    assert (events + [Tick(tEnd, tStart)])[..|events|] == events;
    TickIsCoveredMean(nbVcpus, capacity, events, tEnd, tStart);
    CoveredMean(nbVcpus, capacity, events, tEnd);
    WindowShape(nbVcpus, events, tEnd);
  }

  // ---------------------------------------------------------------- every average is in range

  ghost predicate CountsWithin(entries: seq<Sample>, hi: nat) {
    forall i :: 0 <= i < |entries| ==> 0 <= entries[i].count <= hi
  }

  ghost predicate ArraysWithin(b: Buffers, hi: nat) {
    CountsWithin(b.one.entries, hi) && CountsWithin(b.two.entries, hi)
  }

  /** The buffers of a tick when it is about to average. */
  function AtAverage(m: Tracker, tEnd: u64, tStart: u64): (b: Buffers)
    requires m.buffers.phase.Quiet?
    ensures b.phase.Ended?
  {
    Closing(m.buffers, Sample(m.count, tEnd), Sample(m.count, tStart))
  }

  lemma ClosingWithin(m: Tracker, tEnd: u64, tStart: u64)
    requires m.buffers.phase.Quiet? && 0 <= m.count <= m.nbVcpus && ArraysWithin(m.buffers, m.nbVcpus)
    ensures ArraysWithin(AtAverage(m, tEnd, tStart), m.nbVcpus)
  {
  }

  lemma AppendWithin(b: Buffers, s: Sample, hi: nat)
    requires ArraysWithin(b, hi) && 0 <= s.count <= hi
    ensures ArraysWithin(Step(b, Append(s)), hi)
  {
  }

  /** Whatever the clock does and however many samples there are, the arrays hold possible counts only. */
  lemma {:induction false} RunWithin(nbVcpus: u32, capacity: nat, events: seq<Event>)
    ensures var m := ExecFrom(Registered(nbVcpus, capacity), events);
      0 <= m.count <= nbVcpus && ArraysWithin(m.buffers, nbVcpus)
  {
    if |events| == 0 {
    } else {
      var before, e := events[..|events| - 1], events[|events| - 1];
      RunWithin(nbVcpus, capacity, before);
      var m := ExecFrom(Registered(nbVcpus, capacity), before);
      match e
      case Change(up, now) => AppendWithin(m.buffers, Sample(Moved(m.count, nbVcpus, up), now), nbVcpus);
      case Tick(tEnd, tStart) => ClosingWithin(m, tEnd, tStart);
    }
  }

  /**
   In every run, in order or not, overflowing or not, a tick's average lies in 0..nb_vcpus
   when nb_vcpus times the time it accumulated is below 2^64.
   */
  lemma TickInRange(nbVcpus: u32, capacity: nat, events: seq<Event>, tEnd: u64, tStart: u64)
    requires var m := ExecFrom(Registered(nbVcpus, capacity), events);
      nbVcpus * TickTime(AtAverage(m, tEnd, tStart)) < TWO_64
    ensures 0 <= TickValue(ExecFrom(Registered(nbVcpus, capacity), events), tEnd, tStart) <= nbVcpus
  {
    var m := ExecFrom(Registered(nbVcpus, capacity), events);
    RunWithin(nbVcpus, capacity, events);
    ClosingWithin(m, tEnd, tStart);
    var b := AtAverage(m, tEnd, tStart);
    assert CountsWithin(b.Other().entries, nbVcpus);
    MachineMeanExact(b.Other().entries, b.phase.endIdx, nbVcpus);
  }

  // ---------------------------------------------------------------- the source's in-place form

  type Vcpus = map<Tid, PhantomCounter.Vcpu>

  /** The incoming vCPU was flagged and its guest slot reads 1. */
  predicate ClearsFlag(vcpus: Vcpus, next: Tid, readSlot: u32 -> u64) {
    next in vcpus && readSlot(vcpus[next].index) == 1 && vcpus[next].phantom
  }

  /** The outgoing vCPU runs an OpenMP thread, counts as preempted and is not flagged yet. */
  predicate SetsFlag(vcpus: Vcpus, prev: Tid, prevState: u64, readSlot: u32 -> u64) {
    && prev in vcpus && readSlot(vcpus[prev].index) == 1 && !vcpus[prev].phantom
    && (prevState == PhantomCounter.TASK_RUNNING || prevState == PhantomCounter.TASK_WAKING)
  }

  function Flag(vcpus: Vcpus, t: Tid, phantom: bool): Vcpus
    requires t in vcpus
  {
    vcpus[t := vcpus[t].(phantom := phantom)]
  }

  /** The flags after a whole handler. */
  function FlagsAfter(vcpus: Vcpus, next: Tid, prev: Tid, prevState: u64, readSlot: u32 -> u64): Vcpus {
    var cleared := if ClearsFlag(vcpus, next, readSlot) then Flag(vcpus, next, false) else vcpus;
    var state := if next in vcpus then prevState else 0;
    if SetsFlag(cleared, prev, state, readSlot) then Flag(cleared, prev, true) else cleared
  }

  /** The counter updates a whole handler makes to the VM `name`: at most one down, then one up. */
  function SwitchEvents(vcpus: Vcpus, name: PhantomCounter.VmName, next: Tid, prev: Tid, prevState: u64,
                        readSlot: u32 -> u64, tIn: u64, tOut: u64): seq<Event>
  {
    var cleared := if ClearsFlag(vcpus, next, readSlot) then Flag(vcpus, next, false) else vcpus;
    var state := if next in vcpus then prevState else 0;
    (if ClearsFlag(vcpus, next, readSlot) && vcpus[next].vm == name then [Change(false, tIn)] else [])
    + (if SetsFlag(cleared, prev, state, readSlot) && cleared[prev].vm == name then [Change(true, tOut)] else [])
  }

  /** Only the two threads' flags move: the incoming one's down, the outgoing one's up, if their slots read 1. */
  lemma HandlerFlags(vcpus: Vcpus, next: Tid, prev: Tid, prevState: u64, readSlot: u32 -> u64, t: Tid)
    requires t in vcpus && next != prev
    ensures var flags := FlagsAfter(vcpus, next, prev, prevState, readSlot);
      var state := if next in vcpus then prevState else PhantomCounter.TASK_RUNNING;
      var preempted := state == PhantomCounter.TASK_RUNNING || state == PhantomCounter.TASK_WAKING;
      && flags.Keys == vcpus.Keys && flags[t].index == vcpus[t].index && flags[t].vm == vcpus[t].vm
      && (flags[t].phantom <==>
            if t == next then vcpus[t].phantom && readSlot(vcpus[t].index) != 1
            else if t == prev then vcpus[t].phantom || (readSlot(vcpus[t].index) == 1 && preempted)
            else vcpus[t].phantom)
  {
  }

  /** The handler dropped this thread's flag, and the thread belongs to this VM. */
  ghost predicate Drops(vcpus: Vcpus, flags: Vcpus, name: PhantomCounter.VmName, t: Tid) {
    t in vcpus && t in flags && vcpus[t].vm == name && vcpus[t].phantom && !flags[t].phantom
  }

  ghost predicate Raises(vcpus: Vcpus, flags: Vcpus, name: PhantomCounter.VmName, t: Tid) {
    t in vcpus && t in flags && vcpus[t].vm == name && !vcpus[t].phantom && flags[t].phantom
  }

  /** A handler's clock reads are in order, so are its samples. */
  lemma SwitchEventsOrdered(events: seq<Event>, vcpus: Vcpus, name: PhantomCounter.VmName, next: Tid, prev: Tid,
                            prevState: u64, readSlot: u32 -> u64, tIn: u64, tOut: u64)
    requires Monotone(events) && LastTime(events) <= tIn <= tOut
    ensures Monotone(events + SwitchEvents(vcpus, name, next, prev, prevState, readSlot, tIn, tOut))
  {
    var down, up := SwitchEventsShape(vcpus, name, next, prev, prevState, readSlot, tIn, tOut);
    OrderedPair(events, down, up, tIn, tOut);
  }

  /** At most one decrement stamped by the incoming half, then at most one increment stamped by the outgoing one. */
  lemma SwitchEventsShape(vcpus: Vcpus, name: PhantomCounter.VmName, next: Tid, prev: Tid,
                          prevState: u64, readSlot: u32 -> u64, tIn: u64, tOut: u64) returns (down: bool, up: bool)
    ensures SwitchEvents(vcpus, name, next, prev, prevState, readSlot, tIn, tOut)
         == (if down then [Change(false, tIn)] else []) + (if up then [Change(true, tOut)] else [])
  {
    var cleared := if ClearsFlag(vcpus, next, readSlot) then Flag(vcpus, next, false) else vcpus;
    down := ClearsFlag(vcpus, next, readSlot) && vcpus[next].vm == name;
    up := SetsFlag(cleared, prev, if next in vcpus then prevState else 0, readSlot) && cleared[prev].vm == name;
  }

  lemma OrderedPair(events: seq<Event>, down: bool, up: bool, tIn: u64, tOut: u64)
    requires Monotone(events) && LastTime(events) <= tIn <= tOut
    ensures Monotone(events + ((if down then [Change(false, tIn)] else []) + (if up then [Change(true, tOut)] else [])))
  {
    var first: seq<Event> := if down then [Change(false, tIn)] else [];
    var second: seq<Event> := if up then [Change(true, tOut)] else [];
    if down {
      MonotoneGrows(events, Change(false, tIn));
    } else {
      assert events + first == events;
    }
    if up {
      MonotoneGrows(events + first, Change(true, tOut));
    } else {
      assert events + first + second == events + first;
    }
    assert events + (first + second) == events + first + second;
  }

  lemma MonotoneGrows(events: seq<Event>, e: Event)
    requires Monotone(events) && e.Change? && LastTime(events) <= e.now
    ensures Monotone(events + [e]) && LastTime(events + [e]) == e.now
  {
    assert (events + [e])[..|events|] == events;
  }

  lemma TrueCountGrows(nbVcpus: u32, events: seq<Event>, e: Event, t: int)
    requires e.Change?
    ensures CountAfter(nbVcpus, events + [e]) == Moved(CountAfter(nbVcpus, events), nbVcpus, e.up)
    ensures TrueCount(nbVcpus, events + [e], t)
         == if e.now <= t then CountAfter(nbVcpus, events + [e]) else TrueCount(nbVcpus, events, t)
  {
    assert (events + [e])[..|events|] == events;
  }

  /**
   What a handler does to the counter and when: it goes down at the incoming half's clock read
   if a flag of this VM dropped, and up at the outgoing half's if one was raised.
   */
  lemma SwitchEventsTell(nbVcpus: u32, events: seq<Event>, vcpus: Vcpus, name: PhantomCounter.VmName,
                         next: Tid, prev: Tid, prevState: u64, readSlot: u32 -> u64, tIn: u64, tOut: u64, t: int)
    requires Monotone(events) && LastTime(events) <= tIn <= tOut && LastTime(events) <= t && next != prev
    ensures var flags := FlagsAfter(vcpus, next, prev, prevState, readSlot);
      var c0 := CountAfter(nbVcpus, events);
      var c1 := if Drops(vcpus, flags, name, next) && c0 > 0 then c0 - 1 else c0;
      var c2 := if Raises(vcpus, flags, name, prev) && c1 < nbVcpus then c1 + 1 else c1;
      TrueCount(nbVcpus, events + SwitchEvents(vcpus, name, next, prev, prevState, readSlot, tIn, tOut), t)
      == if t < tIn then c0 else if t < tOut then c1 else c2
  {
    var flags := FlagsAfter(vcpus, next, prev, prevState, readSlot);
    SwitchEventsAreFlagMoves(vcpus, name, next, prev, prevState, readSlot, tIn, tOut);
    PairTells(nbVcpus, events, Drops(vcpus, flags, name, next), Raises(vcpus, flags, name, prev), tIn, tOut, t);
  }

  lemma SwitchEventsAreFlagMoves(vcpus: Vcpus, name: PhantomCounter.VmName, next: Tid, prev: Tid,
                                 prevState: u64, readSlot: u32 -> u64, tIn: u64, tOut: u64)
    requires next != prev
    ensures var flags := FlagsAfter(vcpus, next, prev, prevState, readSlot);
      SwitchEvents(vcpus, name, next, prev, prevState, readSlot, tIn, tOut)
      == (if Drops(vcpus, flags, name, next) then [Change(false, tIn)] else [])
         + (if Raises(vcpus, flags, name, prev) then [Change(true, tOut)] else [])
  {
  }

  lemma PairTells(nbVcpus: u32, events: seq<Event>, down: bool, up: bool, tIn: u64, tOut: u64, t: int)
    requires Monotone(events) && LastTime(events) <= tIn <= tOut && LastTime(events) <= t
    ensures var c0 := CountAfter(nbVcpus, events);
      var c1 := if down && c0 > 0 then c0 - 1 else c0;
      var c2 := if up && c1 < nbVcpus then c1 + 1 else c1;
      TrueCount(nbVcpus, events + ((if down then [Change(false, tIn)] else [])
                                   + (if up then [Change(true, tOut)] else [])), t)
      == if t < tIn then c0 else if t < tOut then c1 else c2
  {
    var first: seq<Event> := if down then [Change(false, tIn)] else [];
    var second: seq<Event> := if up then [Change(true, tOut)] else [];
    TrueCountSettles(nbVcpus, events, t);
    if down {
      TrueCountGrows(nbVcpus, events, Change(false, tIn), t);
    } else {
      assert events + first == events;
    }
    if up {
      TrueCountGrows(nbVcpus, events + first, Change(true, tOut), t);
    } else {
      assert events + first + second == events + first;
    }
    assert events + (first + second) == events + first + second;
  }

  /**
   The documented rule is that a vCPU is flagged when it was preempted, not when it went to
   sleep. For an unflagged vCPU whose slot reads 1, the handler meets it exactly if the
   incoming task is a vCPU too, or the outgoing one was running or waking anyway.
   */
  lemma PreemptionRuleIff(vcpus: Vcpus, next: Tid, prev: Tid, prevState: u64, readSlot: u32 -> u64)
    requires prev in vcpus && prev != next && !vcpus[prev].phantom && readSlot(vcpus[prev].index) == 1
    ensures var preempted := prevState == PhantomCounter.TASK_RUNNING || prevState == PhantomCounter.TASK_WAKING;
      var flags := FlagsAfter(vcpus, next, prev, prevState, readSlot);
      prev in flags && (flags[prev].phantom == preempted <==> next in vcpus || preempted)
  {
  }

  /** A sleeping vCPU (state 1, interruptible) replaced by an ordinary task is flagged all the same. */
  lemma SleeperIsFlagged()
    ensures var vcpus: Vcpus := map[7 := PhantomCounter.Vcpu(0, "vm", false)];
      FlagsAfter(vcpus, 0, 7, 1, _ => 1)[7].phantom
  {
  }

  lemma ExecSingle(m: Tracker, e: Event)
    requires m.buffers.phase.Quiet?
    ensures ExecFrom(m, [e]) == ApplyEvent(m, e)
  {
    assert [e][..0] == [];
  }

  /** One VM with its vCPU entries, its counter and its two sample arrays. */
  class PhantomVm {
    const name: PhantomCounter.VmName
    const nbVcpus: u32
    const buffers: TrackerBuffers
    var vcpus: Vcpus
    var phantomCount: s64

    ghost predicate Valid()
      reads buffers
    {
      buffers.Valid() && buffers.phase.Quiet?
    }

    ghost function Model(): Tracker
      reads this, buffers, buffers.buff1, buffers.buff2
    {
      Tracker(phantomCount, nbVcpus, buffers.Model())
    }

    constructor (name: PhantomCounter.VmName, nbVcpus: u32, capacity: nat, vcpus: Vcpus)
      requires 1 <= capacity <= TWO_32
      ensures Valid() && fresh(buffers) && fresh(buffers.buff1) && fresh(buffers.buff2)
      ensures Model() == Registered(nbVcpus, capacity) && this.vcpus == vcpus && this.name == name
    {
      this.name, this.nbVcpus, this.vcpus, phantomCount := name, nbVcpus, vcpus, 0;
      buffers := new TrackerBuffers(capacity);
    }

    /** Move the counter one way and log the value it returned. */
    method UpdateAndLog(up: bool, now: u64)
      requires Valid()
      modifies this`phantomCount, buffers, buffers.buff1, buffers.buff2
      ensures Valid() && Model() == ApplyEvent(old(Model()), Change(up, now))
    {
      var count := phantomCount;
      var seen := seq(PhantomCounter.MAX_TRIES, _ => PhantomCounter.Seen(count, count));
      assert seen[0] == PhantomCounter.Seen(count, count);
      var result, outcome;
      if up {
        result, outcome := PhantomCounter.AtomicIncIfLtCeil(seen, nbVcpus, phantomCount);
      } else {
        result, outcome := PhantomCounter.AtomicDecIfPos(seen, phantomCount);
      }
      if outcome.Wrote? {
        phantomCount := result;
      }
      buffers.RecordSample(Sample(result, now));
    }

    /** phantom_switch_handler: first the incoming task, then the outgoing one. */
    method SwitchHandler(next: Tid, prev: Tid, ctxPrevState: u64, readSlot: u32 -> u64, tIn: u64, tOut: u64)
      requires Valid()
      modifies this, buffers, buffers.buff1, buffers.buff2
      ensures Valid() && vcpus == FlagsAfter(old(vcpus), next, prev, ctxPrevState, readSlot)
      ensures Model()
           == ExecFrom(old(Model()), SwitchEvents(old(vcpus), name, next, prev, ctxPrevState, readSlot, tIn, tOut))
    {
      ghost var m, events := Model(), SwitchEvents(vcpus, name, next, prev, ctxPrevState, readSlot, tIn, tOut);
      ghost var first: seq<Event> := [];
      var prevState: u64 := 0;
      if next in vcpus {
        prevState := ctxPrevState;
        if readSlot(vcpus[next].index) == 1 && vcpus[next].phantom {
          vcpus := Flag(vcpus, next, false);
          if vcpus[next].vm == name {
            UpdateAndLog(false, tIn);
            first := [Change(false, tIn)];
            ExecSingle(m, Change(false, tIn));
          }
        }
      }
      ghost var mid := Model();
      assert mid == ExecFrom(m, first);
      if prev in vcpus && readSlot(vcpus[prev].index) == 1
        && (prevState == PhantomCounter.TASK_RUNNING || prevState == PhantomCounter.TASK_WAKING)
        && !vcpus[prev].phantom
      {
        vcpus := Flag(vcpus, prev, true);
        if vcpus[prev].vm == name {
          UpdateAndLog(true, tOut);
          ExecSingle(mid, Change(true, tOut));
          ExecSplits(m, first, [Change(true, tOut)]);
          assert events == first + [Change(true, tOut)];
        }
      }
    }

    /** callback_fn for this VM: swap the halves and average the retired one. */
    method TimerTick(tEnd: u64, tStart: u64) returns (avg: s64)
      requires Valid()
      modifies buffers, buffers.buff1, buffers.buff2
      ensures Valid() && Model() == ApplyEvent(old(Model()), Tick(tEnd, tStart))
      ensures avg == TickValue(old(Model()), tEnd, tStart)
    {
      avg := buffers.SwapAndAverage(Sample(phantomCount, tEnd), Sample(phantomCount, tStart));
    }
  }
}

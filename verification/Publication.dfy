/**
 From scheduler events to the bytes both sides share: the timer callback averages, packs and
 writes a watermark (callback_fn in timer.bpf.c), while guest and host keep sampling and
 writing in between.
 */
module Publication {
  import opened MachineInts
  import opened ShmemLayout
  import opened SharedMemory
  import opened HistoryRing
  import opened Watermark
  import I = IdleTracker
  import SampleBuffers
  import opened SampleIntegral
  import W = PhantomWindow
  import opened WeightedAverage

  /** One VM with its sample arrays, on one host. */
  datatype Config = Config(nbVcpus: u32, capacity: nat, nbCpus: u32)

  datatype Action =
    | Counter(up: bool, now: u64)
    | Host(e: I.Event)
    | Guest(index: u32, word: u64)
    | Tick(tEnd: u64, tStart: u64, ts: u64)

  // ---------------------------------------------------------------- words in the page

  /** What a tick publishes, given the run before it. */
  type Publisher = (seq<Action>, u64, u64, u64) -> u64

  /** How many words a run has published. */
  function Ticks(acts: seq<Action>): nat {
    if |acts| == 0 then 0 else Ticks(acts[..|acts| - 1]) + if acts[|acts| - 1].Tick? then 1 else 0
  }

  function Words(publish: Publisher, acts: seq<Action>): (words: seq<u64>)
    ensures |words| == Ticks(acts)
  {
    if |acts| == 0 then [] else
    var before := acts[..|acts| - 1];
    match acts[|acts| - 1]
    case Tick(tEnd, tStart, ts) => Words(publish, before) + [publish(before, tEnd, tStart, ts)]
    case _ => Words(publish, before)
  }

  /** The accesses to the shared memory so far. */
  function Ops(publish: Publisher, acts: seq<Action>): seq<Op> {
    if |acts| == 0 then [] else
    var before := acts[..|acts| - 1];
    match acts[|acts| - 1]
    case Tick(tEnd, tStart, ts) =>
      Ops(publish, before) + [HostWrite(ModuloSlot(Ticks(before)), publish(before, tEnd, tStart, ts))]
    case Guest(index, word) => Ops(publish, before) + [GuestWrite(index, word)]
    case _ => Ops(publish, before)
  }

  /** The bytes of the region after the run. */
  ghost function Memory(nbCpu: u32, publish: Publisher, acts: seq<Action>): (mem: seq<byte>)
    requires nbCpu >= 1
    ensures Ready(mem)
  {
    Exec(nbCpu, Ops(publish, acts))
  }

  ghost function Empty(nbCpu: u32): View {
    Blank(HostHeader(BackendSize(nbCpu)))
  }

  /** Two records that differ at most in the guest's words. */
  ghost predicate SameHostPart(v: View, r: View) {
    v.latest == r.latest && v.history == r.history && v.header == r.header
  }

  lemma OpsStep(nbCpu: u32, publish: Publisher, acts: seq<Action>)
    requires |acts| > 0
    ensures var before, a := acts[..|acts| - 1], acts[|acts| - 1];
      var v := AbstractExec(nbCpu, Ops(publish, before));
      AbstractExec(nbCpu, Ops(publish, acts))
      == match a
         case Tick(tEnd, tStart, ts) =>
           AbstractApply(v, HostWrite(ModuloSlot(Ticks(before)), publish(before, tEnd, tStart, ts)))
         case Guest(index, word) => AbstractApply(v, GuestWrite(index, word))
         case _ => v
  {
    var before, a, ops := acts[..|acts| - 1], acts[|acts| - 1], Ops(publish, acts);
    if a.Tick? || a.Guest? {
      assert ops[..|ops| - 1] == Ops(publish, before);
    }
  }

  lemma WordsStep(nbCpu: u32, publish: Publisher, acts: seq<Action>)
    requires |acts| > 0
    ensures var before, a := acts[..|acts| - 1], acts[|acts| - 1];
      var r := Published(Empty(nbCpu), Words(publish, before));
      Published(Empty(nbCpu), Words(publish, acts))
      == match a
         case Tick(tEnd, tStart, ts) =>
           AbstractApply(r, HostWrite(ModuloSlot(Ticks(before)), publish(before, tEnd, tStart, ts)))
         case _ => r
  {
    var words := Words(publish, acts);
    if acts[|acts| - 1].Tick? {
      assert words[..|words| - 1] == Words(publish, acts[..|acts| - 1]);
    }
  }

  /** Guest writes apart, the page is what the published words alone leave. */
  lemma {:induction false} PageIsPublished(nbCpu: u32, publish: Publisher, acts: seq<Action>)
    ensures SameHostPart(AbstractExec(nbCpu, Ops(publish, acts)), Published(Empty(nbCpu), Words(publish, acts)))
  {
    if |acts| == 0 {
    } else {
      PageIsPublished(nbCpu, publish, acts[..|acts| - 1]);
      OpsStep(nbCpu, publish, acts);
      WordsStep(nbCpu, publish, acts);
    }
  }

  /** The word tick k publishes. */
  function WordAt(publish: Publisher, acts: seq<Action>, k: nat): u64
    requires k < |acts| && acts[k].Tick?
  {
    publish(acts[..k], acts[k].tEnd, acts[k].tStart, acts[k].ts)
  }

  /** It stays in the list at the tick's number. */
  lemma {:induction false} WordOfTick(publish: Publisher, acts: seq<Action>, k: nat)
    requires k < |acts| && acts[k].Tick?
    ensures Ticks(acts[..k]) < Ticks(acts) && Words(publish, acts)[Ticks(acts[..k])] == WordAt(publish, acts, k)
  {
    if k == |acts| - 1 {
    } else {
      WordOfTick(publish, acts[..|acts| - 1], k);
      assert acts[..|acts| - 1][..k] == acts[..k];
    }
  }

  lemma HistoryInMemory(mem: seq<byte>, slot: u32)
    requires |mem| >= G2hSlot(NR_MSGS) && FIRST_HISTORY_SLOT <= slot < NR_MSGS
    ensures H2gSlot(slot) + 8 <= |mem| && ViewOf(mem).history[slot - 1] == Get(mem, H2gSlot(slot))
  {
    assert H2gSlot(slot) == H2gSlot(1) + (slot - 1) * MSG_SIZE;
  }

  lemma RecentWordInHistory(nbCpu: u32, publish: Publisher, acts: seq<Action>, words: seq<u64>, j: nat)
    requires words == Words(publish, acts) && InOrder(|words|) && Recent(|words|, j)
    ensures AbstractExec(nbCpu, Ops(publish, acts)).history[ModuloSlot(j) - 1] == words[j]
  {
    RecentInHistory(Empty(nbCpu), words, j);
    PageIsPublished(nbCpu, publish, acts);
  }

  /**
   For every run, with guest and host writing in between: as long as the ring is in order and
   fewer than 63 ticks followed, the bytes of the slot a tick wrote are its word.
   */
  lemma RecentWordInMemory(nbCpu: u32, publish: Publisher, acts: seq<Action>, k: nat)
    requires nbCpu >= 1 && k < |acts| && acts[k].Tick?
    requires InOrder(Ticks(acts)) && Recent(Ticks(acts), Ticks(acts[..k]))
    ensures var at := H2gSlot(ModuloSlot(Ticks(acts[..k])));
      at + 8 <= |Memory(nbCpu, publish, acts)|
      && Get(Memory(nbCpu, publish, acts), at) == WordAt(publish, acts, k)
  {
    WordOfTick(publish, acts, k);
    RecentWordInHistory(nbCpu, publish, acts, Words(publish, acts), Ticks(acts[..k]));
    MemoryRefinesView(nbCpu, Ops(publish, acts));
    HistoryInMemory(Memory(nbCpu, publish, acts), ModuloSlot(Ticks(acts[..k])));
  }

  /** No tick follows k. */
  ghost predicate LastTick(acts: seq<Action>, k: nat) {
    k < |acts| && acts[k].Tick? && forall i :: k < i < |acts| ==> !acts[i].Tick?
  }

  lemma {:induction false} LastTickIsLast(acts: seq<Action>, k: nat)
    requires LastTick(acts, k)
    ensures Ticks(acts) == Ticks(acts[..k]) + 1
  {
    if k == |acts| - 1 {
    } else {
      LastTickIsLast(acts[..|acts| - 1], k);
      assert acts[..|acts| - 1][..k] == acts[..k];
    }
  }

  lemma LatestIsLastWord(v: View, words: seq<u64>)
    requires |v.history| == HISTORY_SLOTS && |v.runStates| == NR_MSGS && |words| > 0
    ensures Published(v, words).latest == words[|words| - 1]
  {
  }

  /** Slot 0 holds the word of the newest tick, across every wrap of the cursor. */
  lemma LatestWordInMemory(nbCpu: u32, publish: Publisher, acts: seq<Action>, k: nat)
    requires nbCpu >= 1 && LastTick(acts, k)
    ensures Get(Memory(nbCpu, publish, acts), H2gSlot(LATEST_SLOT)) == WordAt(publish, acts, k)
  {
    WordOfTick(publish, acts, k);
    LastTickIsLast(acts, k);
    LatestIsLastWord(Empty(nbCpu), Words(publish, acts));
    PageIsPublished(nbCpu, publish, acts);
    MemoryRefinesView(nbCpu, Ops(publish, acts));
  }

  // ---------------------------------------------------------------- what the words say

  /** What the VM's tracker sees of a run. */
  function VmEvents(acts: seq<Action>): seq<W.Event> {
    if |acts| == 0 then [] else
    var before := VmEvents(acts[..|acts| - 1]);
    match acts[|acts| - 1]
    case Counter(up, now) => before + [W.Change(up, now)]
    case Tick(tEnd, tStart, _) => before + [W.Tick(tEnd, tStart)]
    case _ => before
  }

  /** What the host-wide tracker sees of it. */
  function HostEvents(acts: seq<Action>): seq<I.Event> {
    if |acts| == 0 then [] else
    HostEvents(acts[..|acts| - 1]) + (if acts[|acts| - 1].Host? then [acts[|acts| - 1].e] else [])
  }

  function TrackerAfter(c: Config, acts: seq<Action>): (m: W.Tracker)
    ensures m.buffers.phase.Quiet?
  {
    W.ExecFrom(W.Registered(c.nbVcpus, c.capacity), VmEvents(acts))
  }

  /** The two averages a tick publishes after this run. */
  function PhantomAvg(c: Config, acts: seq<Action>, tEnd: u64, tStart: u64): s64 {
    W.TickValue(TrackerAfter(c, acts), tEnd, tStart)
  }

  function IdleAvg(c: Config, acts: seq<Action>): u64 {
    I.Exec(c.nbCpus, HostEvents(acts)).lastIdleAvg
  }

  /** callback_fn's watermark. */
  function Watermarks(c: Config): Publisher {
    (before, tEnd, tStart, ts) => Pack(ts, PhantomAvg(c, before, tEnd, tStart), IdleAvg(c, before))
  }

  /** A tick on this run accumulates too little time for its sum to wrap. */
  ghost predicate Short(c: Config, acts: seq<Action>, tEnd: u64, tStart: u64) {
    c.nbVcpus * SampleBuffers.TickTime(W.AtAverage(TrackerAfter(c, acts), tEnd, tStart)) < TWO_64
  }

  /** The word decodes to the tick's time and the two averages of that moment, the phantom one in range. */
  ghost predicate Says(word: u64, c: Config, acts: seq<Action>, tEnd: u64, tStart: u64, ts: u64) {
    var avg := PhantomAvg(c, acts, tEnd, tStart);
    0 <= avg <= c.nbVcpus && Unpack(word) == Fields(ts % TWO_32, avg, IdleAvg(c, acts))
  }

  lemma TickDecodes(c: Config, acts: seq<Action>, tEnd: u64, tStart: u64, ts: u64)
    requires c.nbVcpus < 0x1_0000 && c.nbCpus < 0x1_0000 && Short(c, acts, tEnd, tStart)
    ensures Says(Watermarks(c)(acts, tEnd, tStart, ts), c, acts, tEnd, tStart, ts)
  {
    W.TickInRange(c.nbVcpus, c.capacity, VmEvents(acts), tEnd, tStart);
    PublishedWatermarkDecodes(c.nbVcpus, c.capacity, VmEvents(acts), tEnd, tStart, c.nbCpus, HostEvents(acts), ts);
  }

  /**
   For every run and every tick k in it, the bytes of the slot the tick wrote decode to its
   time, the phantom average and the idle average of that moment, as long as the ring is in
   order and fewer than 63 ticks followed.
   */
  lemma WatermarkInMemory(c: Config, nbCpu: u32, acts: seq<Action>, k: nat)
    requires c.nbVcpus < 0x1_0000 && c.nbCpus < 0x1_0000 && nbCpu >= 1
    requires k < |acts| && acts[k].Tick? && Short(c, acts[..k], acts[k].tEnd, acts[k].tStart)
    requires InOrder(Ticks(acts)) && Recent(Ticks(acts), Ticks(acts[..k]))
    ensures var at := H2gSlot(ModuloSlot(Ticks(acts[..k])));
      && at + 8 <= |Memory(nbCpu, Watermarks(c), acts)|
      && Says(Get(Memory(nbCpu, Watermarks(c), acts), at), c, acts[..k], acts[k].tEnd, acts[k].tStart, acts[k].ts)
  {
    RecentWordInMemory(nbCpu, Watermarks(c), acts, k);
    TickDecodes(c, acts[..k], acts[k].tEnd, acts[k].tStart, acts[k].ts);
  }

  /**
   Slot 0, which the guest polls, always decodes to the newest tick: its time and both
   averages. This needs no order, so it holds across every wrap of the cursor.
   */
  lemma LatestWatermarkInMemory(c: Config, nbCpu: u32, acts: seq<Action>, k: nat)
    requires c.nbVcpus < 0x1_0000 && c.nbCpus < 0x1_0000 && nbCpu >= 1
    requires LastTick(acts, k) && Short(c, acts[..k], acts[k].tEnd, acts[k].tStart)
    ensures Says(Get(Memory(nbCpu, Watermarks(c), acts), H2gSlot(LATEST_SLOT)),
                 c, acts[..k], acts[k].tEnd, acts[k].tStart, acts[k].ts)
  {
    LatestWordInMemory(nbCpu, Watermarks(c), acts, k);
    TickDecodes(c, acts[..k], acts[k].tEnd, acts[k].tStart, acts[k].ts);
  }

  // ---------------------------------------------------------------- the reference, on actions alone

  /** phantom_count after a run: each update moves it by one, between 0 and nb_vcpus. */
  ghost function CountOf(nbVcpus: u32, acts: seq<Action>): int {
    if |acts| == 0 then 0 else
    var c := CountOf(nbVcpus, acts[..|acts| - 1]);
    match acts[|acts| - 1]
    case Counter(up, _) => if up then (if c < nbVcpus then c + 1 else c) else (if c > 0 then c - 1 else c)
    case _ => c
  }

  /** Its value at nanosecond t: what the last update up to t left. */
  ghost function CountAt(nbVcpus: u32, acts: seq<Action>, t: int): int {
    if |acts| == 0 then 0 else
    var a := acts[|acts| - 1];
    if a.Counter? && a.now <= t then CountOf(nbVcpus, acts) else CountAt(nbVcpus, acts[..|acts| - 1], t)
  }

  /** When the samples of the VM's open window were taken: at the last tick, then at each update. */
  ghost function SampleTimes(acts: seq<Action>): seq<u64> {
    if |acts| == 0 then [] else
    match acts[|acts| - 1]
    case Counter(_, now) => SampleTimes(acts[..|acts| - 1]) + [now]
    case Tick(_, tStart, _) => [tStart]
    case _ => SampleTimes(acts[..|acts| - 1])
  }

  /** The VM's last clock read. */
  ghost function LastRead(acts: seq<Action>): u64 {
    if |acts| == 0 then 0 else
    match acts[|acts| - 1]
    case Counter(_, now) => now
    case Tick(_, tStart, _) => tStart
    case _ => LastRead(acts[..|acts| - 1])
  }

  /** The VM's clock reads never go backward. */
  ghost predicate Ordered(acts: seq<Action>) {
    |acts| == 0 ||
    (var before := acts[..|acts| - 1];
     && Ordered(before)
     && match acts[|acts| - 1]
        case Counter(_, now) => LastRead(before) <= now
        case Tick(tEnd, tStart, _) => LastRead(before) <= tEnd <= tStart
        case _ => true)
  }

  /** The first and the last sample time that a tick at tEnd reads. */
  ghost function WindowBegin(acts: seq<Action>, tEnd: u64): u64 {
    (SampleTimes(acts) + [tEnd])[0]
  }

  ghost function WindowStop(capacity: nat, acts: seq<Action>, tEnd: u64): u64
    requires capacity >= 1
  {
    if |SampleTimes(acts)| < capacity then tEnd else SampleTimes(acts)[capacity - 1]
  }

  /** The mean of the counter over the part of the closing window that a tick at tEnd reads. */
  ghost function WindowMean(c: Config, acts: seq<Action>, tEnd: u64): int
    requires c.capacity >= 1
  {
    MeanOver(t => CountAt(c.nbVcpus, acts, t), WindowBegin(acts, tEnd), WindowStop(c.capacity, acts, tEnd))
  }

  /** The VM's clock reads are in order, and the tick's window is short and not too full. */
  ghost predicate Steady(c: Config, acts: seq<Action>, tEnd: u64, tStart: u64)
    requires c.capacity >= 1
  {
    && Ordered(acts) && LastRead(acts) <= tEnd <= tStart && |SampleTimes(acts)| < TWO_32
    && c.nbVcpus * (WindowStop(c.capacity, acts, tEnd) - WindowBegin(acts, tEnd)) < TWO_64
  }

  /** The run-queue count last sampled at or before nanosecond t. */
  ghost function HostCountAt(acts: seq<Action>, t: int): int {
    if |acts| == 0 then 0 else
    var a := acts[|acts| - 1];
    if a.Host? && a.e.now <= t then a.e.count else HostCountAt(acts[..|acts| - 1], t)
  }

  /** The host-wide samples since its last boundary, which is the first of them. */
  ghost function HostSamples(acts: seq<Action>): seq<Sample> {
    if |acts| == 0 then [] else
    var a, before := acts[|acts| - 1], HostSamples(acts[..|acts| - 1]);
    if !a.Host? then before
    else if a.e.Boundary? then [Sample(a.e.count, a.e.now)]
    else before + [Sample(a.e.count, a.e.now)]
  }

  ghost predicate HostOrdered(acts: seq<Action>) {
    forall i, j :: 0 <= i <= j < |acts| && acts[i].Host? && acts[j].Host? ==> acts[i].e.now <= acts[j].e.now
  }

  /** b is the last boundary of the host-wide tracker. */
  ghost predicate LastBoundary(acts: seq<Action>, b: nat) {
    && b < |acts| && acts[b].Host? && acts[b].e.Boundary?
    && forall i :: b < i < |acts| ==> !(acts[i].Host? && acts[i].e.Boundary?)
  }

  /** The samples of the window that boundary b closes. */
  ghost function ClosedHostSamples(acts: seq<Action>, b: nat): seq<Sample>
    requires LastBoundary(acts, b)
  {
    HostSamples(acts[..b]) + [Sample(acts[b].e.count, acts[b].e.now)]
  }

  ghost function HostStop(acts: seq<Action>, b: nat): u64
    requires LastBoundary(acts, b)
  {
    var w := ClosedHostSamples(acts, b);
    w[if |w| <= I.CAPACITY then |w| - 1 else I.CAPACITY - 1].timestamp
  }

  /** The mean run-queue count over that window, negative samples read as 0. */
  ghost function BusyMean(acts: seq<Action>, b: nat): int
    requires LastBoundary(acts, b)
  {
    MeanOver(t => Clamp(HostCountAt(acts[..b], t)), ClosedHostSamples(acts, b)[0].timestamp, HostStop(acts, b))
  }

  /** The host's clock reads up to b are in order, and its window is short and not too full. */
  ghost predicate HostSteady(acts: seq<Action>, b: nat, hi: nat)
    requires LastBoundary(acts, b)
  {
    var w := ClosedHostSamples(acts, b);
    && HostOrdered(acts[..b + 1]) && |w| <= TWO_32
    && (forall i :: 0 <= i < |w| ==> Clamp(w[i].count) <= hi)
    && hi < TWO_63 && hi * (HostStop(acts, b) - w[0].timestamp) < TWO_64
  }

  // ---------------------------------------------------------------- the trackers follow it

  lemma VmEventsStep(acts: seq<Action>)
    requires |acts| > 0
    ensures var before, events := VmEvents(acts[..|acts| - 1]), VmEvents(acts);
      match acts[|acts| - 1]
      case Counter(up, now) =>
        |events| > 0 && events[|events| - 1] == W.Change(up, now) && events[..|events| - 1] == before
      case Tick(tEnd, tStart, _) =>
        |events| > 0 && events[|events| - 1] == W.Tick(tEnd, tStart) && events[..|events| - 1] == before
      case _ => events == before
  {
  }

  /** The VM's tracker sees the updates and ticks as they happened. */
  lemma {:induction false} TrackerCounts(nbVcpus: u32, acts: seq<Action>, t: int)
    ensures W.CountAfter(nbVcpus, VmEvents(acts)) == CountOf(nbVcpus, acts)
    ensures W.TrueCount(nbVcpus, VmEvents(acts), t) == CountAt(nbVcpus, acts, t)
  {
    if |acts| == 0 {
    } else {
      TrackerCounts(nbVcpus, acts[..|acts| - 1], t);
      VmEventsStep(acts);
      W.CountInRange(nbVcpus, VmEvents(acts[..|acts| - 1]));
    }
  }

  lemma {:induction false} TrackerOrdered(acts: seq<Action>)
    ensures W.LastTime(VmEvents(acts)) == LastRead(acts)
    ensures W.Monotone(VmEvents(acts)) <==> Ordered(acts)
  {
    if |acts| == 0 {
    } else {
      TrackerOrdered(acts[..|acts| - 1]);
      VmEventsStep(acts);
    }
  }

  lemma {:induction false} TrackerSamples(nbVcpus: u32, acts: seq<Action>)
    ensures var w, times := W.OpenSamples(nbVcpus, VmEvents(acts)), SampleTimes(acts);
      |w| == |times| && forall i :: 0 <= i < |w| ==> w[i].timestamp == times[i]
  {
    if |acts| == 0 {
    } else {
      TrackerSamples(nbVcpus, acts[..|acts| - 1]);
      VmEventsStep(acts);
      if acts[|acts| - 1].Counter? || acts[|acts| - 1].Tick? {
        W.OpenSamplesStep(nbVcpus, VmEvents(acts));
      }
    }
  }

  lemma TrackerWindow(c: Config, acts: seq<Action>, tEnd: u64)
    requires c.capacity >= 1
    ensures var events := VmEvents(acts);
      && W.WindowSize(events) == |SampleTimes(acts)|
      && W.WindowStart(events, tEnd) == WindowBegin(acts, tEnd)
      && W.StopTime(c.nbVcpus, c.capacity, events, tEnd) == WindowStop(c.capacity, acts, tEnd)
  {
    TrackerSamples(c.nbVcpus, acts);
    W.WindowShape(c.nbVcpus, VmEvents(acts), tEnd);
  }

  lemma TrackerMean(c: Config, acts: seq<Action>, tEnd: u64)
    requires c.capacity >= 1
    ensures var events := VmEvents(acts);
      WindowMean(c, acts, tEnd)
      == W.TrueMean(c.nbVcpus, events, WindowBegin(acts, tEnd), WindowStop(c.capacity, acts, tEnd))
  {
    var events, a, b := VmEvents(acts), WindowBegin(acts, tEnd), WindowStop(c.capacity, acts, tEnd);
    forall t | a <= t < b
      ensures CountAt(c.nbVcpus, acts, t) == W.TrueCount(c.nbVcpus, events, t)
    {
      TrackerCounts(c.nbVcpus, acts, t);
    }
    IntegralAgrees(t => CountAt(c.nbVcpus, acts, t), t => W.TrueCount(c.nbVcpus, events, t), a, b);
  }

  lemma TickIsMonotone(acts: seq<Action>, tEnd: u64, tStart: u64)
    requires Ordered(acts) && LastRead(acts) <= tEnd <= tStart
    ensures W.Monotone(VmEvents(acts) + [W.Tick(tEnd, tStart)])
  {
    TrackerOrdered(acts);
    assert (VmEvents(acts) + [W.Tick(tEnd, tStart)])[..|VmEvents(acts)|] == VmEvents(acts);
  }

  lemma HostEventsStep(acts: seq<Action>)
    requires |acts| > 0
    ensures var before, events := HostEvents(acts[..|acts| - 1]), HostEvents(acts);
      if acts[|acts| - 1].Host? then
        |events| > 0 && events[|events| - 1] == acts[|acts| - 1].e && events[..|events| - 1] == before
      else events == before
  {
  }

  /** The host-wide tracker sees its samples as they were taken. */
  lemma {:induction false} HostTrackerSamples(acts: seq<Action>, t: int)
    ensures I.OpenSamples(HostEvents(acts)) == HostSamples(acts)
    ensures I.SampledCount(HostEvents(acts), t) == HostCountAt(acts, t)
  {
    if |acts| == 0 {
    } else {
      HostTrackerSamples(acts[..|acts| - 1], t);
      HostEventsStep(acts);
    }
  }

  lemma {:induction false} HostEventIsAction(acts: seq<Action>, i: nat) returns (k: nat)
    requires i < |HostEvents(acts)|
    ensures k < |acts| && acts[k].Host? && acts[k].e == HostEvents(acts)[i]
  {
    HostEventsStep(acts);
    if i == |HostEvents(acts[..|acts| - 1])| {
      k := |acts| - 1;
    } else {
      k := HostEventIsAction(acts[..|acts| - 1], i);
    }
  }

  lemma {:induction false} HostTrackerOrdered(acts: seq<Action>)
    requires HostOrdered(acts)
    ensures I.Monotone(HostEvents(acts))
  {
    if |acts| == 0 {
    } else {
      var before, events := acts[..|acts| - 1], HostEvents(acts);
      HostTrackerOrdered(before);
      HostEventsStep(acts);
      if acts[|acts| - 1].Host? {
        forall i | 0 <= i < |events| - 1
          ensures events[i].now <= events[|events| - 1].now
        {
          var k := HostEventIsAction(before, i);
          assert acts[k] == before[k] && events[i] == events[..|events| - 1][i];
        }
        LastIsLatest(events);
      }
    }
  }

  lemma LastIsLatest(events: seq<I.Event>)
    requires |events| > 0 && I.Monotone(events[..|events| - 1])
    requires forall i :: 0 <= i < |events| - 1 ==> events[i].now <= events[|events| - 1].now
    ensures I.Monotone(events)
  {
    var before := events[..|events| - 1];
    assert forall i :: 0 <= i < |before| ==> before[i] == events[i];
  }

  // ---------------------------------------------------------------- both fields

  /** The idle average is set at boundaries only. */
  lemma {:induction false} IdleAvgSinceBoundary(c: Config, acts: seq<Action>, b: nat)
    requires LastBoundary(acts, b)
    ensures IdleAvg(c, acts) == IdleAvg(c, acts[..b + 1])
  {
    if b == |acts| - 1 {
      assert acts[..b + 1] == acts;
    } else {
      IdleAvgSinceBoundary(c, acts[..|acts| - 1], b);
      HostEventsStep(acts);
      assert acts[..|acts| - 1][..b + 1] == acts[..b + 1];
    }
  }

  /** Before the first boundary it is 0. */
  lemma {:induction false} IdleAvgAtFirst(c: Config, acts: seq<Action>)
    requires forall i :: 0 <= i < |acts| ==> !(acts[i].Host? && acts[i].e.Boundary?)
    ensures IdleAvg(c, acts) == 0
  {
    if |acts| == 0 {
    } else {
      IdleAvgAtFirst(c, acts[..|acts| - 1]);
      HostEventsStep(acts);
    }
  }

  /** The window that boundary b closes, as the host-wide tracker has it. */
  lemma HostWindow(acts: seq<Action>, b: nat)
    requires LastBoundary(acts, b) && HostOrdered(acts[..b + 1])
    ensures var events, e := HostEvents(acts[..b]), acts[b].e;
      && I.Monotone(events + [e])
      && I.ClosedSamples(events, e.count, e.now) == ClosedHostSamples(acts, b)
      && I.WindowSize(events) == |ClosedHostSamples(acts, b)| - 1
      && I.StartTime(events, e.now) == ClosedHostSamples(acts, b)[0].timestamp
      && I.StopTime(events, e.count, e.now) == HostStop(acts, b)
  {
    var before, e := acts[..b], acts[b].e;
    assert acts[..b + 1][..b] == before;
    HostEventsStep(acts[..b + 1]);
    assert HostEvents(before) + [e] == HostEvents(acts[..b + 1]);
    HostTrackerOrdered(acts[..b + 1]);
    HostTrackerSamples(before, 0);
    I.ClosedSorted(HostEvents(before), e.count, e.now);
    I.OpenSamplesShape(HostEvents(before));
  }

  /** What the host-wide tracker averages at its last boundary. */
  lemma RunningAvgIsBusyMean(c: Config, acts: seq<Action>, b: nat, hi: nat)
    requires LastBoundary(acts, b) && HostSteady(acts, b, hi)
    ensures I.Exec(c.nbCpus, HostEvents(acts[..b]) + [acts[b].e]).runningAvg == BusyMean(acts, b)
  {
    var e := acts[b].e;
    HostWindow(acts, b);
    I.RunningAverageIsMean(c.nbCpus, HostEvents(acts[..b]), e.count, e.now, hi);
    HostTrackerMean(acts[..b], ClosedHostSamples(acts, b)[0].timestamp, HostStop(acts, b));
  }

  lemma HostTrackerMean(acts: seq<Action>, from: int, to: int)
    ensures MeanOver(t => Clamp(I.SampledCount(HostEvents(acts), t)), from, to)
         == MeanOver(t => Clamp(HostCountAt(acts, t)), from, to)
  {
    forall t | from <= t < to
      ensures Clamp(I.SampledCount(HostEvents(acts), t)) == Clamp(HostCountAt(acts, t))
    {
      HostTrackerSamples(acts, t);
    }
    IntegralAgrees(t => Clamp(I.SampledCount(HostEvents(acts), t)), t => Clamp(HostCountAt(acts, t)), from, to);
  }

  /** The idle average is what the mean run-queue count leaves of the machine. */
  lemma IdleAvgIsIdleMean(c: Config, acts: seq<Action>, b: nat, hi: nat)
    requires LastBoundary(acts, b) && HostSteady(acts, b, hi)
    ensures IdleAvg(c, acts) == c.nbCpus - if BusyMean(acts, b) < c.nbCpus then BusyMean(acts, b) else c.nbCpus
  {
    var run := HostEvents(acts[..b]) + [acts[b].e];
    RunningAvgIsBusyMean(c, acts, b, hi);
    IdleAvgSinceBoundary(c, acts, b);
    assert acts[..b + 1][..b] == acts[..b];
    HostEventsStep(acts[..b + 1]);
    assert run == HostEvents(acts[..b + 1]);
    assert run[|run| - 1].Boundary?;
    I.PublishedPairIsComplete(c.nbCpus, run);
  }

  /** Under a monotone clock a tick's average is the mean of the counter. */
  lemma PhantomAvgIsMean(c: Config, acts: seq<Action>, tEnd: u64, tStart: u64)
    requires 1 <= c.capacity <= TWO_32 && Steady(c, acts, tEnd, tStart)
    ensures 0 <= PhantomAvg(c, acts, tEnd, tStart) == WindowMean(c, acts, tEnd) <= c.nbVcpus
  {
    TickIsMonotone(acts, tEnd, tStart);
    TrackerWindow(c, acts, tEnd);
    TrackerMean(c, acts, tEnd);
    W.TickAveragesTrueCount(c.nbVcpus, c.capacity, VmEvents(acts), tEnd, tStart);
  }

  lemma MeanDecodes(c: Config, acts: seq<Action>, tEnd: u64, tStart: u64, ts: u64)
    requires c.nbVcpus < 0x1_0000 && c.nbCpus < 0x1_0000 && 1 <= c.capacity <= TWO_32
    requires Steady(c, acts, tEnd, tStart)
    ensures Unpack(Watermarks(c)(acts, tEnd, tStart, ts)).ts == ts % TWO_32
    ensures Unpack(Watermarks(c)(acts, tEnd, tStart, ts)).phantom == WindowMean(c, acts, tEnd)
  {
    PhantomAvgIsMean(c, acts, tEnd, tStart);
    IdleAverageBound(c.nbCpus, HostEvents(acts));
    FieldsDecode(ts, PhantomAvg(c, acts, tEnd, tStart), IdleAvg(c, acts));
  }

  /**
   Under a monotone clock the guest reads from slot 0 the newest tick's time and the mean, over
   every nanosecond of the window that tick closed, of the counter as the updates moved it.
   */
  lemma GuestReadsTrueMean(c: Config, nbCpu: u32, acts: seq<Action>, k: nat)
    requires c.nbVcpus < 0x1_0000 && c.nbCpus < 0x1_0000 && nbCpu >= 1 && 1 <= c.capacity <= TWO_32
    requires LastTick(acts, k) && Steady(c, acts[..k], acts[k].tEnd, acts[k].tStart)
    ensures var fields := Unpack(Get(Memory(nbCpu, Watermarks(c), acts), H2gSlot(LATEST_SLOT)));
      fields.ts == acts[k].ts % TWO_32 && fields.phantom == WindowMean(c, acts[..k], acts[k].tEnd)
  {
    LatestWordInMemory(nbCpu, Watermarks(c), acts, k);
    MeanDecodes(c, acts[..k], acts[k].tEnd, acts[k].tStart, acts[k].ts);
  }

  lemma IdleDecodes(c: Config, acts: seq<Action>, tEnd: u64, tStart: u64, ts: u64)
    requires c.nbCpus < 0x1_0000
    ensures Unpack(Watermarks(c)(acts, tEnd, tStart, ts)).idle == IdleAvg(c, acts)
  {
    IdleAverageBound(c.nbCpus, HostEvents(acts));
    IdleFieldDecodes(ts, PhantomAvg(c, acts, tEnd, tStart), IdleAvg(c, acts));
  }

  /**
   And whatever the VM's clock does, the idle field is nb_cpus less the mean run-queue count
   over the host's last closed window, at least 0; before the first such window it is 0.
   */
  lemma GuestReadsIdleMean(c: Config, nbCpu: u32, acts: seq<Action>, k: nat, b: nat, hi: nat)
    requires c.nbCpus < 0x1_0000 && nbCpu >= 1 && LastTick(acts, k)
    ensures var idle := Unpack(Get(Memory(nbCpu, Watermarks(c), acts), H2gSlot(LATEST_SLOT))).idle;
      && (LastBoundary(acts[..k], b) && HostSteady(acts[..k], b, hi) ==>
            var busy := BusyMean(acts[..k], b);
            idle == c.nbCpus - if busy < c.nbCpus then busy else c.nbCpus)
      && ((forall i :: 0 <= i < k ==> !(acts[i].Host? && acts[i].e.Boundary?)) ==> idle == 0)
  {
    LatestWordInMemory(nbCpu, Watermarks(c), acts, k);
    IdleDecodes(c, acts[..k], acts[k].tEnd, acts[k].tStart, acts[k].ts);
    if LastBoundary(acts[..k], b) && HostSteady(acts[..k], b, hi) {
      IdleAvgIsIdleMean(c, acts[..k], b, hi);
    }
    if forall i :: 0 <= i < k ==> !(acts[i].Host? && acts[i].e.Boundary?) {
      IdleAvgAtFirst(c, acts[..k]);
    }
  }

  // ---------------------------------------------------------------- and the guest's words

  /** The last word the guest wrote to its slot i, 0 if none. */
  ghost function LastGuestWord(acts: seq<Action>, i: u32): u64 {
    if |acts| == 0 then 0 else
    var a := acts[|acts| - 1];
    if a.Guest? && a.index == i then a.word else LastGuestWord(acts[..|acts| - 1], i)
  }

  lemma {:induction false} GuestWordsAreOps(publish: Publisher, acts: seq<Action>, i: u32)
    ensures LastGuestWrite(Ops(publish, acts), i) == LastGuestWord(acts, i)
  {
    if |acts| == 0 {
    } else {
      var before, a, ops := acts[..|acts| - 1], acts[|acts| - 1], Ops(publish, acts);
      GuestWordsAreOps(publish, before, i);
      if a.Tick? || a.Guest? {
        assert ops[..|ops| - 1] == Ops(publish, before);
      }
    }
  }

  /** No tick disturbs the run states: the bytes of slot i are the guest's last word for it. */
  lemma GuestWordInMemory(nbCpu: u32, publish: Publisher, acts: seq<Action>, i: u32)
    requires nbCpu >= 1 && i < NR_MSGS
    ensures ReadSlot(Memory(nbCpu, publish, acts), i) == LastGuestWord(acts, i)
  {
    GuestWordsAreOps(publish, acts, i);
    HostReadsLastGuestWrite(nbCpu, Ops(publish, acts), i, 0, 0);
  }
}

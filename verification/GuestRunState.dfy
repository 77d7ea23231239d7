/**
 The guest side (omp_thread_reg.bpf.c): which threads are OpenMP threads, and the per-CPU
 run-state word each guest CPU publishes to the host.
 */
module GuestRunState {
  import opened MachineInts
  import opened ShmemLayout

  type Tid = u32
  type Cpu = u32

  const MAX_THREADS: nat := 1_000_000
  /** The idle task, which every CPU runs and no probe ever registers. */
  const IDLE: Tid := 0

  /** The driver refuses indices past the page. */
  function Publish(slots: seq<u64>, cpu: Cpu, word: u64): seq<u64> {
    if cpu < NR_MSGS && cpu < |slots| then slots[cpu := word] else slots
  }

  /** What the probes share: the thread map and the published words. */
  datatype Shared = Shared(tracked: map<Tid, Cpu>, slots: seq<u64>)

  /** capture_omp_master_thread and capture_omp_worker_threads; a full map refuses new keys. */
  function Registered(s: Shared, tid: Tid, cpu: Cpu): Shared {
    if tid in s.tracked || |s.tracked| < MAX_THREADS then s.(tracked := s.tracked[tid := cpu]) else s
  }

  /** remove_current_tid, on exit and on exec. */
  function Removed(s: Shared, tid: Tid, cpu: Cpu): Shared {
    Shared(s.tracked - {tid}, if tid in s.tracked then Publish(s.slots, cpu, 0) else s.slots)
  }

  /** handle_switch. */
  function Switched(s: Shared, prev: Tid, next: Tid, cpu: Cpu): Shared {
    var slots := if prev in s.tracked then Publish(s.slots, cpu, 0) else s.slots;
    s.(slots := if next in s.tracked then Publish(slots, cpu, 1) else slots)
  }

  datatype Guest = Guest(current: map<Cpu, Tid>, shared: Shared)

  datatype Event =
    | Register(cpu: Cpu)
    | Switch(cpu: Cpu, next: Tid)
    | Exit(cpu: Cpu)
    | Exec(cpu: Cpu)

  /** A thread runs on one CPU at a time; only user threads reach a probe. */
  ghost predicate Enabled(g: Guest, e: Event) {
    && e.cpu in g.current
    && (e.Register? ==> g.current[e.cpu] != IDLE)
    && (e.Switch? ==> e.next == IDLE || forall c :: c in g.current ==> g.current[c] != e.next)
  }

  ghost function Step(g: Guest, e: Event): Guest
    requires Enabled(g, e)
  {
    var tid := g.current[e.cpu];
    match e
    case Register(cpu) => g.(shared := Registered(g.shared, tid, cpu))
    case Switch(cpu, next) => Guest(g.current[cpu := next], Switched(g.shared, tid, next, cpu))
    case Exit(cpu) => g.(shared := Removed(g.shared, tid, cpu))
    case Exec(cpu) => g.(shared := Removed(g.shared, tid, cpu))
  }

  ghost predicate Legal(g: Guest, events: seq<Event>)
    decreases |events|, 0
  {
    |events| == 0
    || (Legal(g, events[..|events| - 1]) && Enabled(Run(g, events[..|events| - 1]), events[|events| - 1]))
  }

  ghost function Run(g: Guest, events: seq<Event>): Guest
    requires Legal(g, events)
    decreases |events|, 1
  {
    if |events| == 0 then g else Step(Run(g, events[..|events| - 1]), events[|events| - 1])
  }

  /** At load: no thread tracked, every slot zero, no thread on two CPUs. */
  ghost predicate Init(g: Guest) {
    g.shared == Shared(map[], seq(NR_MSGS, _ => 0)) && OnePlace(g)
  }

  ghost predicate OnePlace(g: Guest) {
    forall c, d | c in g.current && d in g.current && g.current[c] == g.current[d] :: c == d || g.current[c] == IDLE
  }

  ghost predicate Tracked(g: Guest, cpu: Cpu) {
    cpu in g.current && g.current[cpu] in g.shared.tracked
  }

  // ---------------------------------------------------------------- the reference, on events alone

  /** A CPU's task: the last one switched in, else the one that was there. */
  ghost function TaskOn(g: Guest, events: seq<Event>, cpu: Cpu): Tid {
    if |events| == 0 then (if cpu in g.current then g.current[cpu] else IDLE) else
    var e := events[|events| - 1];
    if e.Switch? && e.cpu == cpu then e.next else TaskOn(g, events[..|events| - 1], cpu)
  }

  /** The OpenMP threads: those registered since their last exit or exec, while there was room. */
  ghost function Threads(g: Guest, events: seq<Event>): set<Tid> {
    if |events| == 0 then {} else
    var before, e := events[..|events| - 1], events[|events| - 1];
    var threads, tid := Threads(g, before), TaskOn(g, before, e.cpu);
    match e
    case Register(_) => if |threads| < MAX_THREADS then threads + {tid} else threads
    case Switch(_, _) => threads
    case Exit(_) => threads - {tid}
    case Exec(_) => threads - {tid}
  }

  /** This CPU's task has been an OpenMP thread at every moment since it was switched in. */
  ghost predicate OpenMpSinceSwitchIn(g: Guest, events: seq<Event>, cpu: Cpu) {
    && |events| > 0
    && TaskOn(g, events, cpu) in Threads(g, events)
    && ((events[|events| - 1].Switch? && events[|events| - 1].cpu == cpu)
        || OpenMpSinceSwitchIn(g, events[..|events| - 1], cpu))
  }

  /** Event i registers this thread. */
  ghost predicate Registers(g: Guest, events: seq<Event>, tid: Tid, i: nat) {
    i < |events| && events[i].Register? && TaskOn(g, events[..i], events[i].cpu) == tid
  }

  /** Event i is this thread's exit or exec. */
  ghost predicate Leaves(g: Guest, events: seq<Event>, tid: Tid, i: nat) {
    i < |events| && (events[i].Exit? || events[i].Exec?) && TaskOn(g, events[..i], events[i].cpu) == tid
  }

  ghost predicate RegisteredSinceLeaving(g: Guest, events: seq<Event>, tid: Tid) {
    exists i :: Registers(g, events, tid, i) && forall j :: i < j ==> !Leaves(g, events, tid, j)
  }

  lemma {:induction false} ThreadsAtMost(g: Guest, events: seq<Event>)
    ensures |Threads(g, events)| <= |events|
  {
    if |events| == 0 {
    } else {
      ThreadsAtMost(g, events[..|events| - 1]);
    }
  }

  lemma PrefixEvents(g: Guest, events: seq<Event>, tid: Tid, i: nat)
    requires i < |events| - 1
    ensures var before := events[..|events| - 1];
      && (Registers(g, events, tid, i) <==> Registers(g, before, tid, i))
      && (Leaves(g, events, tid, i) <==> Leaves(g, before, tid, i))
  {
    assert events[..|events| - 1][..i] == events[..i];
  }

  /** How that changes with the last event. */
  lemma RegisteredStep(g: Guest, events: seq<Event>, tid: Tid)
    requires |events| > 0
    ensures var before, last := events[..|events| - 1], |events| - 1;
      RegisteredSinceLeaving(g, events, tid) <==>
      Registers(g, events, tid, last) || (RegisteredSinceLeaving(g, before, tid) && !Leaves(g, events, tid, last))
  {
    var before, last := events[..|events| - 1], |events| - 1;
    forall i: nat | i < last
      ensures Registers(g, events, tid, i) <==> Registers(g, before, tid, i)
      ensures Leaves(g, events, tid, i) <==> Leaves(g, before, tid, i)
    {
      PrefixEvents(g, events, tid, i);
    }
    if RegisteredSinceLeaving(g, before, tid) {
      var i: nat :| Registers(g, before, tid, i) && forall j :: i < j ==> !Leaves(g, before, tid, j);
      assert Registers(g, events, tid, i);
    }
    if RegisteredSinceLeaving(g, events, tid) {
      var i: nat :| Registers(g, events, tid, i) && forall j :: i < j ==> !Leaves(g, events, tid, j);
      assert i < last ==> Registers(g, before, tid, i) && !Leaves(g, events, tid, last);
    }
  }

  /** Registered and not gone since, spelled out over the events; a full map aside. */
  lemma {:induction false} ThreadIffRegistered(g: Guest, events: seq<Event>, tid: Tid)
    requires |events| <= MAX_THREADS
    ensures tid in Threads(g, events) <==> RegisteredSinceLeaving(g, events, tid)
  {
    if |events| == 0 {
    } else {
      ThreadIffRegistered(g, events[..|events| - 1], tid);
      ThreadsAtMost(g, events[..|events| - 1]);
      RegisteredStep(g, events, tid);
    }
  }

  /** The thread map and the current tasks follow that reference in every run. */
  lemma {:induction false} RunFollowsEvents(g: Guest, events: seq<Event>)
    requires Init(g) && Legal(g, events)
    ensures Run(g, events).shared.tracked.Keys == Threads(g, events)
    ensures Run(g, events).current.Keys == g.current.Keys
    ensures forall cpu :: cpu in g.current ==> Run(g, events).current[cpu] == TaskOn(g, events, cpu)
  {
    if |events| == 0 {
    } else {
      var before := events[..|events| - 1];
      RunFollowsEvents(g, before);
      var m := Run(g, before).shared.tracked;
      assert |m| == |m.Keys|;
    }
  }

  /** Registering tracks the thread, under its CPU, unless the map is full. */
  lemma RegisterTracks(g: Guest, cpu: Cpu)
    requires Enabled(g, Register(cpu)) && |g.shared.tracked| < MAX_THREADS
    ensures var h := Step(g, Register(cpu)); Tracked(h, cpu) && h.shared.tracked[g.current[cpu]] == cpu
  {
  }

  ghost predicate Inv(g: Guest) {
    |g.shared.slots| == NR_MSGS && OnePlace(g) && IDLE !in g.shared.tracked
  }

  lemma StepKeepsInv(g: Guest, e: Event)
    requires Inv(g) && Enabled(g, e)
    ensures Inv(Step(g, e)) && Step(g, e).current.Keys == g.current.Keys
  {
  }

  lemma {:induction false} RunKeepsInv(g: Guest, events: seq<Event>)
    requires Init(g) && Legal(g, events)
    ensures Inv(Run(g, events)) && Run(g, events).current.Keys == g.current.Keys
  {
    if |events| == 0 {
    } else {
      RunKeepsInv(g, events[..|events| - 1]);
      StepKeepsInv(Run(g, events[..|events| - 1]), events[|events| - 1]);
    }
  }

  /** An event on one CPU neither publishes for another CPU nor untracks its task. */
  lemma OtherCpusUntouched(g: Guest, e: Event, cpu: Cpu)
    requires Inv(g) && Enabled(g, e) && cpu != e.cpu && cpu in g.current
    ensures var h := Step(g, e);
      && h.current[cpu] == g.current[cpu]
      && (Tracked(g, cpu) ==> Tracked(h, cpu))
      && (cpu < NR_MSGS ==> h.shared.slots[cpu] == g.shared.slots[cpu])
  {
  }

  /** What an event does to its own CPU's word, given that 1 stands for a tracked task. */
  lemma OwnCpu(g: Guest, e: Event)
    requires Inv(g) && Enabled(g, e) && e.cpu < NR_MSGS
    requires g.shared.slots[e.cpu] == 0 || (g.shared.slots[e.cpu] == 1 && Tracked(g, e.cpu))
    ensures var h := Step(g, e);
      && (e.Switch? ==> h.shared.slots[e.cpu] == if Tracked(h, e.cpu) then 1 else 0)
      && (e.Exit? || e.Exec? ==> h.shared.slots[e.cpu] == 0 && !Tracked(h, e.cpu))
      && (e.Register? ==> h.shared.slots[e.cpu] == g.shared.slots[e.cpu] && (Tracked(g, e.cpu) ==> Tracked(h, e.cpu)))
  {
  }

  /**
   Over every run of registrations, switches, migrations, exits and execs, a CPU's word is 1
   exactly when its task has been an OpenMP thread continuously since it was switched in,
   else 0.
   */
  lemma {:induction false} SlotIffOpenMpSinceSwitchIn(g: Guest, events: seq<Event>, cpu: Cpu)
    requires Init(g) && Legal(g, events) && cpu in g.current && cpu < NR_MSGS
    ensures Inv(Run(g, events))
    ensures Run(g, events).shared.slots[cpu] == if OpenMpSinceSwitchIn(g, events, cpu) then 1 else 0
  {
    RunKeepsInv(g, events);
    RunFollowsEvents(g, events);
    if |events| == 0 {
    } else {
      var before, e := events[..|events| - 1], events[|events| - 1];
      SlotIffOpenMpSinceSwitchIn(g, before, cpu);
      RunKeepsInv(g, before);
      RunFollowsEvents(g, before);
      if e.cpu == cpu {
        OwnCpu(Run(g, before), e);
      } else {
        OtherCpusUntouched(Run(g, before), e, cpu);
      }
    }
  }

  /** So a published 1 never outlives the tracked thread it stands for. */
  lemma PublishedThreadIsTracked(g: Guest, events: seq<Event>, cpu: Cpu)
    requires Init(g) && Legal(g, events) && cpu in g.current && cpu < NR_MSGS
    ensures Inv(Run(g, events))
    ensures Run(g, events).shared.slots[cpu] == 1 ==> Tracked(Run(g, events), cpu)
  {
    SlotIffOpenMpSinceSwitchIn(g, events, cpu);
    RunFollowsEvents(g, events);
  }

  // ---------------------------------------------------------------- the source's in-place form

  class OmpThreads {
    var ompThreadsMap: map<Tid, Cpu>
    const g2hPage: array<u64>

    ghost function Model(): Shared
      reads this, g2hPage
    {
      Shared(ompThreadsMap, g2hPage[..])
    }

    constructor ()
      ensures fresh(g2hPage) && g2hPage.Length == NR_MSGS
      ensures Model() == Shared(map[], seq(NR_MSGS, _ => 0))
    {
      ompThreadsMap := map[];
      g2hPage := new u64[NR_MSGS](_ => 0);
      new;
      assert g2hPage[..] == seq(NR_MSGS, _ => 0);
    }

    /** bpf_guest_ivshmem_g2h_write with its range check. */
    method G2hWrite(cpu: Cpu, word: u64)
      modifies g2hPage
      ensures g2hPage[..] == Publish(old(g2hPage[..]), cpu, word)
    {
      if cpu < NR_MSGS && cpu < g2hPage.Length {
        g2hPage[cpu] := word;
      }
    }

    method CaptureOmpThread(tid: Tid, cpu: Cpu)
      modifies this
      ensures Model() == Registered(old(Model()), tid, cpu)
    {
      if tid in ompThreadsMap || |ompThreadsMap| < MAX_THREADS {
        ompThreadsMap := ompThreadsMap[tid := cpu];
      }
    }

    method RemoveCurrentTid(tid: Tid, cpu: Cpu)
      modifies this, g2hPage
      ensures Model() == Removed(old(Model()), tid, cpu)
    {
      if tid in ompThreadsMap {
        G2hWrite(cpu, 0);
      }
      ompThreadsMap := ompThreadsMap - {tid};
    }

    method HandleSwitch(prevTid: Tid, nextTid: Tid, cpu: Cpu)
      modifies g2hPage
      ensures Model() == Switched(old(Model()), prevTid, nextTid, cpu)
    {
      if prevTid in ompThreadsMap {
        G2hWrite(cpu, 0);
      }
      if nextTid in ompThreadsMap {
        G2hWrite(cpu, 1);
      }
    }
  }
}

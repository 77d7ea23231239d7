/**
 The guest's run states in the shared bytes: what omp_thread_reg.bpf.c publishes is what
 host_ivshmem_g2h_read returns, whatever the host writes in between.
 */
module GuestPage {
  import opened MachineInts
  import opened ShmemLayout
  import opened SharedMemory
  import G = GuestRunState
  import HostGuest

  datatype Write = Write(cpu: u32, word: u64)

  /** The slots after these writes. */
  ghost function Written(slots: seq<u64>, writes: seq<Write>): seq<u64> {
    if |writes| == 0 then slots else
    var last := writes[|writes| - 1];
    G.Publish(Written(slots, writes[..|writes| - 1]), last.cpu, last.word)
  }

  /** The writes of the guest among all accesses to the region. */
  ghost function GuestWrites(ops: seq<Op>): seq<Write> {
    if |ops| == 0 then [] else
    var op := ops[|ops| - 1];
    GuestWrites(ops[..|ops| - 1]) + (if op.GuestWrite? then [Write(op.index, op.msg)] else [])
  }

  lemma WrittenAppend(slots: seq<u64>, writes: seq<Write>, w: Write)
    ensures Written(slots, writes + [w]) == G.Publish(Written(slots, writes), w.cpu, w.word)
  {
    assert (writes + [w])[..|writes|] == writes;
  }

  /** The run states in the page are what the guest's writes alone leave. */
  lemma {:induction false} RunStatesAreWritten(nbCpu: u32, ops: seq<Op>)
    ensures AbstractExec(nbCpu, ops).runStates == Written(Zeros(NR_MSGS), GuestWrites(ops))
  {
    if |ops| == 0 {
    } else {
      var before, op := ops[..|ops| - 1], ops[|ops| - 1];
      RunStatesAreWritten(nbCpu, before);
      if op.GuestWrite? {
        WrittenAppend(Zeros(NR_MSGS), GuestWrites(before), Write(op.index, op.msg));
      } else {
        assert GuestWrites(ops) == GuestWrites(before);
      }
    }
  }

  /** The writes one guest event makes. */
  ghost function EventWrites(g: G.Guest, e: G.Event): seq<Write>
    requires G.Enabled(g, e)
  {
    var tid, tracked := g.current[e.cpu], g.shared.tracked;
    var leaves: seq<Write> := if tid in tracked then [Write(e.cpu, 0)] else [];
    match e
    case Register(_) => []
    case Switch(_, next) => leaves + (if next in tracked then [Write(e.cpu, 1)] else [])
    case Exit(_) => leaves
    case Exec(_) => leaves
  }

  ghost function RunWrites(g: G.Guest, events: seq<G.Event>): seq<Write>
    requires G.Legal(g, events)
  {
    if |events| == 0 then [] else
    var before := events[..|events| - 1];
    RunWrites(g, before) + EventWrites(G.Run(g, before), events[|events| - 1])
  }

  /** What a task leaves behind on its CPU. */
  lemma LeaveWritten(slots: seq<u64>, writes: seq<Write>, cpu: u32, tracked: bool)
    ensures Written(slots, writes + (if tracked then [Write(cpu, 0)] else []))
         == if tracked then G.Publish(Written(slots, writes), cpu, 0) else Written(slots, writes)
  {
    WrittenAppend(slots, writes, Write(cpu, 0));
    assert writes + [] == writes;
  }

  lemma EnterWritten(slots: seq<u64>, writes: seq<Write>, cpu: u32, tracked: bool)
    ensures Written(slots, writes + (if tracked then [Write(cpu, 1)] else []))
         == if tracked then G.Publish(Written(slots, writes), cpu, 1) else Written(slots, writes)
  {
    WrittenAppend(slots, writes, Write(cpu, 1));
    assert writes + [] == writes;
  }

  lemma EventWritten(slots: seq<u64>, writes: seq<Write>, g: G.Guest, e: G.Event)
    requires G.Enabled(g, e) && g.shared.slots == Written(slots, writes)
    ensures G.Step(g, e).shared.slots == Written(slots, writes + EventWrites(g, e))
  {
    var tid, tracked := g.current[e.cpu], g.shared.tracked;
    var leaves: seq<Write> := if tid in tracked then [Write(e.cpu, 0)] else [];
    LeaveWritten(slots, writes, e.cpu, tid in tracked);
    match e
    case Register(_) => assert writes + [] == writes;
    case Switch(_, next) =>
      var enters: seq<Write> := if next in tracked then [Write(e.cpu, 1)] else [];
      EnterWritten(slots, writes + leaves, e.cpu, next in tracked);
      assert writes + (leaves + enters) == writes + leaves + enters;
    case Exit(_) =>
    case Exec(_) =>
  }

  lemma {:induction false} RunIsWritten(g: G.Guest, events: seq<G.Event>)
    requires G.Init(g) && G.Legal(g, events)
    ensures G.Run(g, events).shared.slots == Written(Zeros(NR_MSGS), RunWrites(g, events))
  {
    if |events| == 0 {
      assert g.shared.slots == Zeros(NR_MSGS);
    } else {
      var before := events[..|events| - 1];
      RunIsWritten(g, before);
      EventWritten(Zeros(NR_MSGS), RunWrites(g, before), G.Run(g, before), events[|events| - 1]);
    }
  }

  /**
   For every guest run, and every sequence of accesses to the region in which the guest makes
   exactly the writes of that run: the slots of the joint model are the bytes, and a host read
   of slot i returns 1 if guest CPU i's task has been an OpenMP thread since it was switched in, else 0.
   */
  lemma HostReadsRunState(nbCpu: u32, ops: seq<Op>, g: G.Guest, events: seq<G.Event>, i: u32)
    requires nbCpu >= 1 && i < NR_MSGS && i in g.current
    requires G.Init(g) && G.Legal(g, events) && GuestWrites(ops) == RunWrites(g, events)
    ensures ReadSlot(Exec(nbCpu, ops), i) == HostGuest.G2hRead(G.Run(g, events).shared.slots, i)
    ensures ReadSlot(Exec(nbCpu, ops), i) == if G.OpenMpSinceSwitchIn(g, events, i) then 1 else 0
  {
    MemoryRefinesView(nbCpu, ops);
    RunStatesAreWritten(nbCpu, ops);
    RunIsWritten(g, events);
    assert ViewOf(Exec(nbCpu, ops)).runStates[i] == ReadSlot(Exec(nbCpu, ops), i);
    G.SlotIffOpenMpSinceSwitchIn(g, events, i);
  }
}

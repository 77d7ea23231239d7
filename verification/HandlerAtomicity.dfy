/**
 The two models of phantom_switch_handler agree: the fine-grained one, run on its pCPU
 without interruption, ends where the whole handler taken as one step ends.
 */
module HandlerAtomicity {
  import opened MachineInts
  import opened PhantomCounter
  import W = PhantomWindow

  /** The message the next access of this core reads, if it reads a slot. */
  function MessageFor(h: Host, c: Core, readSlot: u32 -> u64): u64 {
    if c.phase.InSlot? && c.next in h.vcpus then readSlot(h.vcpus[c.next].index)
    else if c.phase.OutSlot? && c.current in h.vcpus then readSlot(h.vcpus[c.current].index)
    else 0
  }

  /** One access of the handler on p; nothing once it has returned. */
  ghost function Solo(h: Host, p: Pcpu, readSlot: u32 -> u64): Host
    requires p in h.cores
  {
    if h.cores[p].phase.Quiet? then h else Step(h, Advance(p, MessageFor(h, h.cores[p], readSlot)))
  }

  /** n accesses of the handler on p, nothing in between. */
  ghost function SoloRun(h: Host, p: Pcpu, readSlot: u32 -> u64, n: nat): Host
    requires p in h.cores
    decreases n
  {
    if n == 0 then h else SoloRun(Solo(h, p, readSlot), p, readSlot, n - 1)
  }

  lemma {:induction false} SoloRunSplits(h: Host, p: Pcpu, readSlot: u32 -> u64, m: nat, n: nat)
    requires p in h.cores
    ensures p in SoloRun(h, p, readSlot, m).cores
    ensures SoloRun(h, p, readSlot, m + n) == SoloRun(SoloRun(h, p, readSlot, m), p, readSlot, n)
    decreases m
  {
    if m == 0 {
    } else {
      SoloRunSplits(Solo(h, p, readSlot), p, readSlot, m - 1, n);
    }
  }

  /** An uncontended retry loop: the clamped update, or one more missed update at the clamp. */
  function MovedVm(dir: Dir, vm: Vm): Vm {
    if AtClamp(dir, vm.nbVcpus, vm.count) then Missed(dir, vm)
    else vm.(count := Target(dir, vm.nbVcpus, vm.count))
  }

  function MovedVms(vms: map<VmName, Vm>, v: VmName, dir: Dir): map<VmName, Vm> {
    if v in vms then vms[v := MovedVm(dir, vms[v])] else vms
  }

  /** From its first read to the end of an uncontended loop: two accesses, or one at the clamp. */
  lemma LoopAlone(dir: Dir, vm: Vm)
    ensures var (vm1, l1) := LoopStep(dir, vm, Read(0));
      if AtClamp(dir, vm.nbVcpus, vm.count) then l1.Done? && vm1 == MovedVm(dir, vm)
      else vm1 == vm && l1 == Swap(0, vm.count)
           && LoopStep(dir, vm, l1).1.Done? && LoopStep(dir, vm, l1).0 == MovedVm(dir, vm)
  {
  }

  /** The incoming half as one step. */
  function IncomingDone(h: Host, p: Pcpu, readSlot: u32 -> u64): Host
    requires p in h.cores
  {
    var c := h.cores[p];
    if W.ClearsFlag(h.vcpus, c.next, readSlot) then
      Host(W.Flag(h.vcpus, c.next, false), MovedVms(h.vms, h.vcpus[c.next].vm, Down), h.cores[p := AfterIn(h, c)])
    else h.(cores := h.cores[p := AfterIn(h, c)])
  }

  /** The outgoing half as one step. */
  function OutgoingDone(h: Host, p: Pcpu, readSlot: u32 -> u64): Host
    requires p in h.cores
  {
    var c := h.cores[p];
    if W.SetsFlag(h.vcpus, c.current, c.prevState, readSlot) then
      Host(W.Flag(h.vcpus, c.current, true), MovedVms(h.vms, h.vcpus[c.current].vm, Up),
           h.cores[p := c.(phase := Leaving)])
    else h.(cores := h.cores[p := c.(phase := Leaving)])
  }

  /** Inside the loop of the incoming half. */
  lemma IncomingLoop(h: Host, p: Pcpu, readSlot: u32 -> u64) returns (n: nat)
    requires p in h.cores && h.cores[p].phase == InLoop(Read(0))
    requires h.cores[p].next in h.vcpus && h.vcpus[h.cores[p].next].vm in h.vms
    ensures var c := h.cores[p];
      SoloRun(h, p, readSlot, n)
      == Host(h.vcpus, MovedVms(h.vms, h.vcpus[c.next].vm, Down), h.cores[p := AfterIn(h, c)])
  {
    var c := h.cores[p];
    var v := h.vcpus[c.next].vm;
    LoopAlone(Down, h.vms[v]);
    var h1 := Solo(h, p, readSlot);
    if AtClamp(Down, h.vms[v].nbVcpus, h.vms[v].count) {
      n := 1;
      assert SoloRun(h1, p, readSlot, 0) == h1;
    } else {
      n := 2;
      assert h1 == Host(h.vcpus, h.vms, h.cores[p := c.(phase := InLoop(Swap(0, h.vms[v].count)))]);
      var h2 := Solo(h1, p, readSlot);
      assert h2.cores == h.cores[p := AfterIn(h, c)];
      assert SoloRun(h1, p, readSlot, 1) == SoloRun(h2, p, readSlot, 0) == h2;
    }
  }

  lemma OutgoingLoop(h: Host, p: Pcpu, readSlot: u32 -> u64) returns (n: nat)
    requires p in h.cores && h.cores[p].phase == OutLoop(Read(0))
    requires h.cores[p].current in h.vcpus && h.vcpus[h.cores[p].current].vm in h.vms
    ensures var c := h.cores[p];
      SoloRun(h, p, readSlot, n)
      == Host(h.vcpus, MovedVms(h.vms, h.vcpus[c.current].vm, Up), h.cores[p := c.(phase := Leaving)])
  {
    var c := h.cores[p];
    var v := h.vcpus[c.current].vm;
    LoopAlone(Up, h.vms[v]);
    var h1 := Solo(h, p, readSlot);
    if AtClamp(Up, h.vms[v].nbVcpus, h.vms[v].count) {
      n := 1;
      assert SoloRun(h1, p, readSlot, 0) == h1;
    } else {
      n := 2;
      assert h1 == Host(h.vcpus, h.vms, h.cores[p := c.(phase := OutLoop(Swap(0, h.vms[v].count)))]);
      var h2 := Solo(h1, p, readSlot);
      assert h2.cores == h.cores[p := c.(phase := Leaving)];
      assert SoloRun(h1, p, readSlot, 1) == SoloRun(h2, p, readSlot, 0) == h2;
    }
  }

  /** At the flag access of the incoming half, its slot having read 1. */
  lemma IncomingFlag(h: Host, p: Pcpu, readSlot: u32 -> u64) returns (n: nat)
    requires p in h.cores && h.cores[p].phase.InFlag? && h.cores[p].next in h.vcpus
    requires readSlot(h.vcpus[h.cores[p].next].index) == 1
    ensures SoloRun(h, p, readSlot, n) == IncomingDone(h, p, readSlot)
  {
    var c := h.cores[p];
    var h1 := Solo(h, p, readSlot);
    if h.vcpus[c.next].phantom && h.vcpus[c.next].vm in h.vms {
      var m := IncomingLoop(h1, p, readSlot);
      n := 1 + m;
      assert h1.cores[p := AfterIn(h, c)] == h.cores[p := AfterIn(h, c)];
    } else {
      n := 1;
      assert SoloRun(h1, p, readSlot, 0) == h1;
    }
  }

  lemma OutgoingFlag(h: Host, p: Pcpu, readSlot: u32 -> u64) returns (n: nat)
    requires p in h.cores && h.cores[p].phase.OutFlag? && h.cores[p].current in h.vcpus
    requires readSlot(h.vcpus[h.cores[p].current].index) == 1
    requires h.cores[p].prevState == TASK_RUNNING || h.cores[p].prevState == TASK_WAKING
    ensures SoloRun(h, p, readSlot, n) == OutgoingDone(h, p, readSlot)
  {
    var c := h.cores[p];
    var h1 := Solo(h, p, readSlot);
    if !h.vcpus[c.current].phantom && h.vcpus[c.current].vm in h.vms {
      var m := OutgoingLoop(h1, p, readSlot);
      n := 1 + m;
      assert h1.cores[p := c.(phase := Leaving)] == h.cores[p := c.(phase := Leaving)];
    } else {
      n := 1;
      assert SoloRun(h1, p, readSlot, 0) == h1;
    }
  }

  lemma IncomingAlone(h: Host, p: Pcpu, readSlot: u32 -> u64) returns (n: nat)
    requires p in h.cores && h.cores[p].phase.InSlot? && h.cores[p].next in h.vcpus
    ensures SoloRun(h, p, readSlot, n) == IncomingDone(h, p, readSlot)
  {
    var c := h.cores[p];
    var h1 := Solo(h, p, readSlot);
    if readSlot(h.vcpus[c.next].index) == 1 {
      assert h1 == h.(cores := h.cores[p := c.(phase := InFlag)]);
      var m := IncomingFlag(h1, p, readSlot);
      n := 1 + m;
      assert h1.cores[p := AfterIn(h, c)] == h.cores[p := AfterIn(h, c)];
    } else {
      n := 1;
      assert SoloRun(h1, p, readSlot, 0) == h1;
    }
  }

  lemma OutgoingAlone(h: Host, p: Pcpu, readSlot: u32 -> u64) returns (n: nat)
    requires p in h.cores && h.cores[p].phase.OutSlot? && h.cores[p].current in h.vcpus
    ensures SoloRun(h, p, readSlot, n) == OutgoingDone(h, p, readSlot)
  {
    var c := h.cores[p];
    var h1 := Solo(h, p, readSlot);
    var preempted := c.prevState == TASK_RUNNING || c.prevState == TASK_WAKING;
    if readSlot(h.vcpus[c.current].index) == 1 && preempted {
      assert h1 == h.(cores := h.cores[p := c.(phase := OutFlag)]);
      var m := OutgoingFlag(h1, p, readSlot);
      n := 1 + m;
      assert h1.cores[p := c.(phase := Leaving)] == h.cores[p := c.(phase := Leaving)];
    } else {
      n := 1;
      assert SoloRun(h1, p, readSlot, 0) == h1;
    }
  }

  /** The outgoing half and the switch itself, once the incoming half is over. */
  lemma FinishAlone(h: Host, p: Pcpu, readSlot: u32 -> u64) returns (n: nat)
    requires p in h.cores
    requires h.cores[p].phase == if h.cores[p].current in h.vcpus then OutSlot else Leaving
    ensures var c, r := h.cores[p], SoloRun(h, p, readSlot, n);
      && r.vcpus == OutgoingDone(h, p, readSlot).vcpus && r.vms == OutgoingDone(h, p, readSlot).vms
      && r.cores == h.cores[p := c.(current := c.next, phase := Quiet)]
  {
    var c := h.cores[p];
    var m := 0;
    if c.current in h.vcpus {
      m := OutgoingAlone(h, p, readSlot);
    } else {
      assert h.cores[p := c.(phase := Leaving)] == h.cores;
    }
    var d := OutgoingDone(h, p, readSlot);
    assert SoloRun(h, p, readSlot, m) == d;
    SoloRunSplits(h, p, readSlot, m, 1);
    n := m + 1;
    var r := Solo(d, p, readSlot);
    assert SoloRun(d, p, readSlot, 1) == SoloRun(r, p, readSlot, 0) == r;
    assert r.cores == h.cores[p := c.(current := c.next, phase := Quiet)];
  }

  /** What the whole-handler model says about a VM's counter. */
  function VmCountAfter(vm: Vm, events: seq<W.Event>): s64 {
    W.CountFrom(vm.count, vm.nbVcpus, events)
  }

  /** Counters and flags after both halves are those of the whole-handler model. */
  lemma HalvesAreEvents(h: Host, p: Pcpu, readSlot: u32 -> u64, v: VmName, ctxState: u64, tIn: u64, tOut: u64)
    requires p in h.cores && v in h.vms
    requires h.cores[p].prevState == if h.cores[p].next in h.vcpus then ctxState else 0
    ensures var c := h.cores[p];
      var d := OutgoingDone(IncomingDone(h, p, readSlot), p, readSlot);
      && d.vcpus == W.FlagsAfter(h.vcpus, c.next, c.current, ctxState, readSlot)
      && v in d.vms
      && d.vms[v].count
         == VmCountAfter(h.vms[v], W.SwitchEvents(h.vcpus, v, c.next, c.current, ctxState, readSlot, tIn, tOut))
  {
    var c := h.cores[p];
    var d1 := IncomingDone(h, p, readSlot);
    var events := W.SwitchEvents(h.vcpus, v, c.next, c.current, ctxState, readSlot, tIn, tOut);
    assert d1.cores[p].current == c.current && d1.cores[p].prevState == c.prevState;
    var clears := W.ClearsFlag(h.vcpus, c.next, readSlot) && h.vcpus[c.next].vm == v;
    var first: seq<W.Event> := if clears then [W.Change(false, tIn)] else [];
    W.CountFromOne(h.vms[v].count, h.vms[v].nbVcpus, W.Change(false, tIn));
    assert d1.vms[v].count == VmCountAfter(h.vms[v], first) && d1.vms[v].nbVcpus == h.vms[v].nbVcpus;
    if W.SetsFlag(d1.vcpus, c.current, c.prevState, readSlot) && d1.vcpus[c.current].vm == v {
      assert events == first + [W.Change(true, tOut)];
      assert events[..|events| - 1] == first;
    } else {
      assert events == first;
    }
  }

  /** Both halves, once the handler has been entered. */
  lemma HalvesAlone(g: Host, p: Pcpu, readSlot: u32 -> u64) returns (n: nat)
    requires p in g.cores
    requires g.cores[p] == if g.cores[p].next in g.vcpus then g.cores[p].(phase := InSlot) else AfterIn(g, g.cores[p])
    ensures var c, r := g.cores[p], SoloRun(g, p, readSlot, n);
      var d := OutgoingDone(IncomingDone(g, p, readSlot), p, readSlot);
      && r.vcpus == d.vcpus && r.vms == d.vms
      && r.cores == g.cores[p := c.(current := c.next, phase := Quiet)]
  {
    var c := g.cores[p];
    var m := 0;
    if c.next in g.vcpus {
      m := IncomingAlone(g, p, readSlot);
    } else {
      assert g.cores[p := AfterIn(g, c)] == g.cores;
    }
    var d := IncomingDone(g, p, readSlot);
    assert SoloRun(g, p, readSlot, m) == d;
    assert d.cores == g.cores[p := AfterIn(g, c)];
    var k := FinishAlone(d, p, readSlot);
    SoloRunSplits(g, p, readSlot, m, k);
    n := m + k;
  }

  /**
   Entered at rest and run without interruption, the fine-grained handler ends at rest with
   the next task current, and with exactly the flags and counters of the handler as one step.
   */
  lemma UninterruptedHandlerIsAtomic(
    h: Host, p: Pcpu, next: Tid, ctxState: u64, readSlot: u32 -> u64, v: VmName, tIn: u64, tOut: u64)
    returns (n: nat)
    requires Enabled(h, Begin(p, next, ctxState)) && v in h.vms
    ensures var prev, r := h.cores[p].current, SoloRun(Step(h, Begin(p, next, ctxState)), p, readSlot, n);
      && r.cores.Keys == h.cores.Keys && r.cores[p].phase.Quiet? && r.cores[p].current == next
      && r.vcpus == W.FlagsAfter(h.vcpus, next, prev, ctxState, readSlot)
      && v in r.vms
      && r.vms[v].count == VmCountAfter(h.vms[v], W.SwitchEvents(h.vcpus, v, next, prev, ctxState, readSlot, tIn, tOut))
  {
    var g := Step(h, Begin(p, next, ctxState));
    n := HalvesAlone(g, p, readSlot);
    HalvesAreEvents(g, p, readSlot, v, ctxState, tIn, tOut);
  }
}

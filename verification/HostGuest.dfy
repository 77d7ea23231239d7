/**
 Host and guest together, for one VM. A guest CPU executes only while its vCPU thread is on a
 pCPU with no switch handler running there; the host's handlers read the slots the guest
 publishes, one access at a time.
 */
module HostGuest {
  import opened MachineInts
  import H = PhantomCounter
  import G = GuestRunState
  import ShmemLayout

  type Tid = H.Tid

  datatype Joint = Joint(host: H.Host, guest: G.Guest)

  datatype Action = OnHost(a: H.Action) | InGuest(e: G.Event)

  /** bpf_host_ivshmem_g2h_read into a zeroed message: a refused index reads 0. */
  function G2hRead(slots: seq<u64>, index: u32): u64 {
    if index < ShmemLayout.NR_MSGS && index < |slots| then slots[index] else 0
  }

  ghost function SlotOf(s: Joint, t: Tid): u64
    requires t in s.host.vcpus
  {
    G2hRead(s.guest.shared.slots, s.host.vcpus[t].index)
  }

  /** The thread is on a pCPU, executing guest code. */
  ghost predicate Running(h: H.Host, t: Tid) {
    exists p :: p in h.cores && h.cores[p].phase.Quiet? && h.cores[p].current == t
  }

  ghost predicate CpuRuns(h: H.Host, cpu: nat) {
    exists t :: t in h.vcpus && h.vcpus[t].index == cpu && Running(h, t)
  }

  ghost predicate Enabled(s: Joint, act: Action) {
    match act
    case InGuest(e) => G.Enabled(s.guest, e) && CpuRuns(s.host, e.cpu)
    case OnHost(a) =>
      && H.Enabled(s.host, a)
      && (a.Advance? ==>
            var c := s.host.cores[a.p];
            && (c.phase.InSlot? && c.next in s.host.vcpus ==> a.msg == SlotOf(s, c.next))
            && (c.phase.OutSlot? && c.current in s.host.vcpus ==> a.msg == SlotOf(s, c.current)))
  }

  ghost function Step(s: Joint, act: Action): Joint
    requires Enabled(s, act)
  {
    match act
    case InGuest(e) => s.(guest := G.Step(s.guest, e))
    case OnHost(a) => s.(host := H.Step(s.host, a))
  }

  ghost predicate Legal(s: Joint, acts: seq<Action>)
    decreases |acts|, 0
  {
    |acts| == 0 || (Legal(s, acts[..|acts| - 1]) && Enabled(Exec(s, acts[..|acts| - 1]), acts[|acts| - 1]))
  }

  ghost function Exec(s: Joint, acts: seq<Action>): Joint
    requires Legal(s, acts)
    decreases |acts|, 1
  {
    if |acts| == 0 then s else Step(Exec(s, acts[..|acts| - 1]), acts[|acts| - 1])
  }

  ghost predicate DistinctIndices(h: H.Host) {
    forall t, u :: t in h.vcpus && u in h.vcpus && h.vcpus[t].index == h.vcpus[u].index ==> t == u
  }

  ghost predicate Init(s: Joint) {
    H.Init(s.host) && G.Init(s.guest) && DistinctIndices(s.host)
  }

  // ---------------------------------------------------------------- each side runs its own protocol

  ghost function HostActs(acts: seq<Action>): seq<H.Action> {
    if |acts| == 0 then []
    else HostActs(acts[..|acts| - 1]) + (if acts[|acts| - 1].OnHost? then [acts[|acts| - 1].a] else [])
  }

  ghost function GuestEvents(acts: seq<Action>): seq<G.Event> {
    if |acts| == 0 then []
    else GuestEvents(acts[..|acts| - 1]) + (if acts[|acts| - 1].InGuest? then [acts[|acts| - 1].e] else [])
  }

  lemma HostAppends(h: H.Host, acts: seq<H.Action>, a: H.Action)
    requires H.Legal(h, acts) && H.Enabled(H.Exec(h, acts), a)
    ensures H.Legal(h, acts + [a]) && H.Exec(h, acts + [a]) == H.Step(H.Exec(h, acts), a)
  {
    assert (acts + [a])[..|acts|] == acts;
  }

  lemma GuestAppends(g: G.Guest, events: seq<G.Event>, e: G.Event)
    requires G.Legal(g, events) && G.Enabled(G.Run(g, events), e)
    ensures G.Legal(g, events + [e]) && G.Run(g, events + [e]) == G.Step(G.Run(g, events), e)
  {
    assert (events + [e])[..|events|] == events;
  }

  /** What is proved of every host run and every guest run holds of every joint run. */
  lemma {:induction false} JointRunProjects(s: Joint, acts: seq<Action>)
    requires Legal(s, acts)
    ensures H.Legal(s.host, HostActs(acts)) && Exec(s, acts).host == H.Exec(s.host, HostActs(acts))
    ensures G.Legal(s.guest, GuestEvents(acts)) && Exec(s, acts).guest == G.Run(s.guest, GuestEvents(acts))
  {
    if |acts| == 0 {
    } else {
      var before, act := acts[..|acts| - 1], acts[|acts| - 1];
      JointRunProjects(s, before);
      match act
      case OnHost(a) =>
        HostAppends(s.host, HostActs(before), a);
        assert GuestEvents(acts) == GuestEvents(before);
      case InGuest(e) =>
        GuestAppends(s.guest, GuestEvents(before), e);
        assert HostActs(acts) == HostActs(before);
    }
  }

  // ---------------------------------------------------------------- the joint invariant

  /** Where a core may stand while a vCPU it deals with is marked phantom. */
  ghost predicate CoreInStep(s: Joint, c: H.Core) {
    && (c.current in s.host.vcpus && s.host.vcpus[c.current].phantom ==> c.phase.OutLoop? || c.phase.Leaving?)
    && (!c.phase.Quiet? && c.next in s.host.vcpus && s.host.vcpus[c.next].phantom ==>
          c.phase.InSlot? || c.phase.InFlag?)
    && (c.phase.OutFlag? && c.current in s.host.vcpus ==> SlotOf(s, c.current) == 1)
  }

  ghost predicate PhantomSlotsReadOne(s: Joint) {
    forall t :: t in s.host.vcpus && s.host.vcpus[t].phantom ==> SlotOf(s, t) == 1
  }

  ghost predicate InStep(s: Joint) {
    && PhantomSlotsReadOne(s) && DistinctIndices(s.host)
    && (forall p :: p in s.host.cores ==> CoreInStep(s, s.host.cores[p]))
  }

  ghost predicate Inv(s: Joint) {
    H.Inv(s.host) && G.Inv(s.guest) && InStep(s)
  }

  lemma SlotsElsewhere(g: G.Guest, e: G.Event, i: nat)
    requires G.Enabled(g, e) && i < |g.shared.slots| && i != e.cpu
    ensures |G.Step(g, e).shared.slots| == |g.shared.slots| && G.Step(g, e).shared.slots[i] == g.shared.slots[i]
  {
  }

  /** Guest code on one CPU cannot change the slot of a vCPU that is flagged or being flagged. */
  lemma GuestKeepsInStep(s: Joint, e: G.Event)
    requires Inv(s) && Enabled(s, InGuest(e))
    ensures InStep(Step(s, InGuest(e)))
  {
    var s' := Step(s, InGuest(e));
    var t :| t in s.host.vcpus && s.host.vcpus[t].index == e.cpu && Running(s.host, t);
    forall u | u in s.host.vcpus && u != t
      ensures SlotOf(s', u) == SlotOf(s, u)
    {
      if s.host.vcpus[u].index < |s.guest.shared.slots| {
        SlotsElsewhere(s.guest, e, s.host.vcpus[u].index);
      }
    }
    var p :| p in s.host.cores && s.host.cores[p].phase.Quiet? && s.host.cores[p].current == t;
    assert CoreInStep(s, s.host.cores[p]);
    forall q | q in s'.host.cores
      ensures CoreInStep(s', s'.host.cores[q])
    {
      assert CoreInStep(s, s.host.cores[q]);
      assert H.Involves(s.host.cores[p], t);
      assert s.host.cores[q].current == t ==> H.Involves(s.host.cores[q], t);
    }
  }

  /** The stepping core's own part, while it deals with the incoming task. */
  lemma IncomingInStep(s: Joint, p: H.Pcpu, msg: u64)
    requires Inv(s) && Enabled(s, OnHost(H.Advance(p, msg))) && H.Incoming(s.host.cores[p].phase)
    ensures var s' := Step(s, OnHost(H.Advance(p, msg))); CoreInStep(s', s'.host.cores[p])
  {
    var c := s.host.cores[p];
    assert H.CoreOk(s.host, c) && CoreInStep(s, c);
    assert c.next != c.current;
  }

  /** While it deals with the outgoing task, or starts or ends. */
  lemma OutgoingInStep(s: Joint, a: H.Action)
    requires Inv(s) && Enabled(s, OnHost(a))
    requires a.Advance? ==> !H.Incoming(s.host.cores[a.p].phase)
    ensures var s' := Step(s, OnHost(a)); CoreInStep(s', s'.host.cores[a.p])
  {
    var c := s.host.cores[a.p];
    assert H.CoreOk(s.host, c) && CoreInStep(s, c);
    assert a.Advance? && c.next in s.host.vcpus ==> c.next != c.current;
  }

  lemma OwnCoreInStep(s: Joint, a: H.Action)
    requires Inv(s) && Enabled(s, OnHost(a))
    ensures CoreInStep(Step(s, OnHost(a)), Step(s, OnHost(a)).host.cores[a.p])
  {
    if a.Advance? && H.Incoming(s.host.cores[a.p].phase) {
      IncomingInStep(s, a.p, a.msg);
    } else {
      OutgoingInStep(s, a);
    }
  }

  /** A flag is raised only where the slot reads 1, and only for the owner. */
  lemma HostKeepsSlots(s: Joint, a: H.Action)
    requires Inv(s) && Enabled(s, OnHost(a))
    ensures var s', t := Step(s, OnHost(a)), H.Owner(s.host.cores[a.p]);
      && s'.host.vcpus.Keys == s.host.vcpus.Keys
      && (forall u :: u in s.host.vcpus ==> s'.host.vcpus[u].index == s.host.vcpus[u].index)
      && (forall u :: u in s.host.vcpus && u != t ==> s'.host.vcpus[u] == s.host.vcpus[u])
      && PhantomSlotsReadOne(s')
  {
    var c := s.host.cores[a.p];
    assert H.CoreOk(s.host, c) && CoreInStep(s, c);
    H.EffectIsOk(s.host, c, a);
  }

  lemma HostKeepsInStep(s: Joint, a: H.Action)
    requires Inv(s) && Enabled(s, OnHost(a))
    ensures InStep(Step(s, OnHost(a)))
  {
    var s', c := Step(s, OnHost(a)), s.host.cores[a.p];
    OwnCoreInStep(s, a);
    HostKeepsSlots(s, a);
    forall q | q in s'.host.cores && q != a.p
      ensures CoreInStep(s', s'.host.cores[q])
    {
      assert CoreInStep(s, s.host.cores[q]);
      assert H.Involves(c, H.Owner(c));
    }
  }

  lemma StepKeepsInv(s: Joint, act: Action)
    requires Inv(s) && Enabled(s, act)
    ensures Inv(Step(s, act))
  {
    match act
    case InGuest(e) =>
      GuestKeepsInStep(s, e);
      G.StepKeepsInv(s.guest, e);
    case OnHost(a) =>
      HostKeepsInStep(s, a);
      H.StepKeepsInv(s.host, a);
  }

  lemma {:induction false} RunKeepsInv(s: Joint, acts: seq<Action>)
    requires Init(s) && Legal(s, acts)
    ensures Inv(Exec(s, acts)) && Exec(s, acts).host.vcpus.Keys == s.host.vcpus.Keys
  {
    if |acts| == 0 {
      H.InitInv(s.host);
    } else {
      RunKeepsInv(s, acts[..|acts| - 1]);
      StepKeepsInv(Exec(s, acts[..|acts| - 1]), acts[|acts| - 1]);
      JointRunProjects(s, acts);
      H.RunKeepsInv(s.host, HostActs(acts));
    }
  }

  /**
   In every reachable state a phantom vCPU is off every pCPU and its guest slot still reads
   1; so no vCPU runs guest code while marked phantom.
   */
  lemma PhantomIsOffWithSlotOne(s: Joint, acts: seq<Action>, t: Tid)
    requires Init(s) && Legal(s, acts) && t in s.host.vcpus
    ensures t in Exec(s, acts).host.vcpus
    ensures var r := Exec(s, acts);
      r.host.vcpus[t].phantom ==> SlotOf(r, t) == 1 && !Running(r.host, t)
  {
    RunKeepsInv(s, acts);
    var r := Exec(s, acts);
    if Running(r.host, t) {
      var p :| p in r.host.cores && r.host.cores[p].phase.Quiet? && r.host.cores[p].current == t;
      assert CoreInStep(r, r.host.cores[p]);
    }
  }

  /** A switch-in handler that has passed its flag step has always cleared the incoming flag. */
  lemma SwitchInClearsFlag(s: Joint, acts: seq<Action>, p: H.Pcpu)
    requires Init(s) && Legal(s, acts) && p in Exec(s, acts).host.cores
    requires var c := Exec(s, acts).host.cores[p]; H.Outgoing(c.phase) || c.phase.InLoop? || c.phase.Leaving?
    ensures var r := Exec(s, acts);
      r.host.cores[p].next in r.host.vcpus ==> !r.host.vcpus[r.host.cores[p].next].phantom
  {
    RunKeepsInv(s, acts);
    assert CoreInStep(Exec(s, acts), Exec(s, acts).host.cores[p]);
  }

  // ---------------------------------------------------------------- what the counter tells

  /** Off every pCPU while its guest CPU has an OpenMP thread current. */
  ghost predicate Stalled(s: Joint, t: Tid) {
    t in s.host.vcpus && !Running(s.host, t) && G.Tracked(s.guest, s.host.vcpus[t].index)
  }

  /**
   With no handler in flight, no exhausted loop and room for every vCPU, phantom_count is
   the number of flagged vCPUs, and each of them is a stalled OpenMP thread.
   */
  lemma CounterCountsStalledVcpus(s: Joint, acts: seq<Action>, v: H.VmName)
    requires Init(s) && Legal(s, acts) && v in s.host.vms
    requires |H.Registered(s.host, v)| <= s.host.vms[v].nbVcpus
    requires forall t :: t in s.host.vcpus ==> s.host.vcpus[t].index in s.guest.current
    requires forall p :: p in Exec(s, acts).host.cores ==> Exec(s, acts).host.cores[p].phase.Quiet?
    ensures v in Exec(s, acts).host.vms
    ensures var r := Exec(s, acts);
      && (r.host.vms[v].exhausted == 0 ==> r.host.vms[v].count == |H.Flagged(r.host, v)|)
      && (forall t :: t in H.Flagged(r.host, v) ==> Stalled(r, t))
  {
    JointRunProjects(s, acts);
    var r := Exec(s, acts);
    H.NoDriftWithoutExhaustion(s.host, HostActs(acts), v);
    assert H.PendingIncs(r.host, v) == {} && H.PendingDecs(r.host, v) == {};
    forall t | t in H.Flagged(r.host, v)
      ensures Stalled(r, t)
    {
      FlaggedIsStalled(s, acts, t);
    }
  }

  lemma FlaggedIsStalled(s: Joint, acts: seq<Action>, t: Tid)
    requires Init(s) && Legal(s, acts)
    requires t in Exec(s, acts).host.vcpus && Exec(s, acts).host.vcpus[t].phantom
    requires forall u :: u in s.host.vcpus ==> s.host.vcpus[u].index in s.guest.current
    ensures Stalled(Exec(s, acts), t)
  {
    var r := Exec(s, acts);
    RunKeepsInv(s, acts);
    PhantomIsOffWithSlotOne(s, acts, t);
    JointRunProjects(s, acts);
    IndexKept(s, acts, t);
    G.PublishedThreadIsTracked(s.guest, GuestEvents(acts), r.host.vcpus[t].index);
  }

  lemma {:induction false} IndexKept(s: Joint, acts: seq<Action>, t: Tid)
    requires Init(s) && Legal(s, acts) && t in s.host.vcpus
    ensures t in Exec(s, acts).host.vcpus && Exec(s, acts).host.vcpus[t].index == s.host.vcpus[t].index
  {
    if |acts| == 0 {
    } else {
      var before := acts[..|acts| - 1];
      IndexKept(s, before, t);
      RunKeepsInv(s, before);
      if acts[|acts| - 1].OnHost? {
        HostKeepsSlots(Exec(s, before), acts[|acts| - 1].a);
      }
    }
  }
}

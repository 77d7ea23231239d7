/**
 The phantom counter under fine-grained interleaving (create_maps.bpf.c). Every pCPU runs
 its own switch handler; a slot read, a flag compare-and-swap, a counter read and a counter
 compare-and-swap are separate steps, and handlers of different pCPUs interleave freely.
 The scheduler lets a vCPU thread be on, or moving to, at most one pCPU.
 */
module PhantomCounter {
  import opened MachineInts

  type Tid = u32
  type Pcpu = nat
  type VmName = string

  const MAX_TRIES: nat := 24
  const TASK_RUNNING: u64 := 0
  const TASK_WAKING: u64 := 0x200

  // ---------------------------------------------------------------- the bounded retry loops

  datatype Dir = Down | Up

  /** How a retry loop ended: it wrote, it met its clamp, or it used up its tries. */
  datatype Outcome = Wrote | Clamped | Exhausted

  /** About to read the counter, about to swap it, or finished. */
  datatype Loop = Read(attempt: nat) | Swap(attempt: nat, was: s64) | Done(outcome: Outcome)

  /** The value at which the loop refuses to move the counter. */
  predicate AtClamp(dir: Dir, ceiling: u32, v: s64) {
    match dir
    case Down => v <= 0
    case Up => v >= ceiling
  }

  function Target(dir: Dir, ceiling: u32, was: s64): s64
    requires !AtClamp(dir, ceiling, was)
  {
    match dir
    case Down => was - 1
    case Up => was + 1
  }

  function AfterRead(dir: Dir, ceiling: u32, attempt: nat, v: s64): Loop {
    if AtClamp(dir, ceiling, v) then Done(Clamped) else Swap(attempt, v)
  }

  function AfterSwap(attempt: nat, was: s64, v: s64): Loop {
    if v == was then Done(Wrote)
    else if attempt + 1 < MAX_TRIES then Read(attempt + 1)
    else Done(Exhausted)
  }

  /** What one attempt observes: the value it reads and the value its swap then finds. */
  datatype Seen = Seen(read: s64, found: s64)

  /** The attempt was not clamped, and another pCPU changed the counter before the swap. */
  predicate LostRace(dir: Dir, ceiling: u32, s: Seen) {
    !AtClamp(dir, ceiling, s.read) && s.found != s.read
  }

  /** The attempt that ends the loop, 24 if every attempt lost its race. */
  function Deciding(dir: Dir, ceiling: u32, seen: seq<Seen>, k: nat): (d: nat)
    requires k <= |seen|
    ensures k <= d <= |seen|
    ensures forall j :: k <= j < d ==> LostRace(dir, ceiling, seen[j])
    ensures d < |seen| ==> !LostRace(dir, ceiling, seen[d])
    decreases |seen| - k
  {
    if k == |seen| || !LostRace(dir, ceiling, seen[k]) then k else Deciding(dir, ceiling, seen, k + 1)
  }

  /** The loop as the interleaving model takes it, one read and one swap at a time. */
  function RunLoop(dir: Dir, ceiling: u32, seen: seq<Seen>, attempt: nat): Outcome
    requires |seen| == MAX_TRIES && attempt < MAX_TRIES
    decreases MAX_TRIES - attempt
  {
    match AfterRead(dir, ceiling, attempt, seen[attempt].read)
    case Done(outcome) => outcome
    case Read(_) => Exhausted
    case Swap(a, was) =>
      match AfterSwap(a, was, seen[a].found)
      case Done(outcome) => outcome
      case Read(next) => RunLoop(dir, ceiling, seen, next)
      case Swap(_, _) => Exhausted
  }

  /** The stepwise loop ends as its deciding attempt says. */
  lemma {:induction false} RunLoopDecided(dir: Dir, ceiling: u32, seen: seq<Seen>, attempt: nat)
    requires |seen| == MAX_TRIES && attempt < MAX_TRIES
    ensures var d := Deciding(dir, ceiling, seen, attempt);
      RunLoop(dir, ceiling, seen, attempt)
      == if d == MAX_TRIES then Exhausted
         else if AtClamp(dir, ceiling, seen[d].read) then Clamped else Wrote
    decreases MAX_TRIES - attempt
  {
    if !LostRace(dir, ceiling, seen[attempt]) || attempt + 1 == MAX_TRIES {
    } else {
      RunLoopDecided(dir, ceiling, seen, attempt + 1);
    }
  }

  /** atomic_dec_if_pos against an environment that supplies each read and each swap result. */
  method AtomicDecIfPos(seen: seq<Seen>, last: s64) returns (result: s64, outcome: Outcome)
    requires |seen| == MAX_TRIES
    ensures outcome == RunLoop(Down, 0, seen, 0)
    ensures var d := Deciding(Down, 0, seen, 0);
      if d == MAX_TRIES then outcome.Exhausted? && result == last
      else if seen[d].read <= 0 then outcome.Clamped? && result == seen[d].read
      else outcome.Wrote? && result == seen[d].read - 1
    ensures outcome.Wrote? ==> result >= 0
  {
    RunLoopDecided(Down, 0, seen, 0);
    for attempt := 0 to MAX_TRIES
      invariant Deciding(Down, 0, seen, 0) == Deciding(Down, 0, seen, attempt)
    {
      var was := seen[attempt].read;
      if was <= 0 {
        return was, Clamped;
      }
      if seen[attempt].found == was {
        return was - 1, Wrote;
      }
    }
    return last, Exhausted;
  }

  /** atomic_inc_if_lt_ceil, likewise. */
  method AtomicIncIfLtCeil(seen: seq<Seen>, ceiling: u32, last: s64) returns (result: s64, outcome: Outcome)
    requires |seen| == MAX_TRIES
    ensures outcome == RunLoop(Up, ceiling, seen, 0)
    ensures var d := Deciding(Up, ceiling, seen, 0);
      if d == MAX_TRIES then outcome.Exhausted? && result == last
      else if seen[d].read >= ceiling then outcome.Clamped? && result == seen[d].read
      else outcome.Wrote? && result == seen[d].read + 1
    ensures outcome.Wrote? ==> result <= ceiling
  {
    RunLoopDecided(Up, ceiling, seen, 0);
    for attempt := 0 to MAX_TRIES
      invariant Deciding(Up, ceiling, seen, 0) == Deciding(Up, ceiling, seen, attempt)
    {
      var was := seen[attempt].read;
      if was >= ceiling {
        return was, Clamped;
      }
      if seen[attempt].found == was {
        return was + 1, Wrote;
      }
    }
    return last, Exhausted;
  }

  // ---------------------------------------------------------------- the interleaved handlers

  datatype Vcpu = Vcpu(index: u32, vm: VmName, phantom: bool)

  /** vm_t's counter. The tallies record updates that a handler owed and did not make. */
  datatype Vm = Vm(count: s64, nbVcpus: u32, missedUp: nat, missedDown: nat, exhausted: nat)

  datatype Phase =
    | Quiet
    | InSlot
    | InFlag
    | InLoop(loop: Loop)
    | OutSlot
    | OutFlag
    | OutLoop(loop: Loop)
    | Leaving

  /** A pCPU: its current task and the progress of its switch handler towards `next`. */
  datatype Core = Core(current: Tid, next: Tid, prevState: u64, phase: Phase)

  datatype Host = Host(vcpus: map<Tid, Vcpu>, vms: map<VmName, Vm>, cores: map<Pcpu, Core>)

  datatype Action = Begin(p: Pcpu, next: Tid, prevState: u64) | Advance(p: Pcpu, msg: u64)

  predicate Involves(c: Core, t: Tid) {
    c.current == t || (!c.phase.Quiet? && c.next == t)
  }

  ghost predicate Enabled(h: Host, a: Action) {
    && a.p in h.cores
    && match a
       case Begin(p, next, _) =>
         && h.cores[p].phase.Quiet?
         && (next in h.vcpus ==> forall q :: q in h.cores ==> !Involves(h.cores[q], next))
       case Advance(p, _) => !h.cores[p].phase.Quiet?
  }

  /** Where the handler goes once the incoming task is dealt with. */
  function AfterIn(h: Host, c: Core): Core {
    c.(phase := if c.current in h.vcpus then OutSlot else Leaving)
  }

  /** What one access changes: the core's progress, at most one flag, at most one counter. */
  datatype Effect = Effect(core: Core, flag: FlagWrite, counter: CounterWrite)
  datatype FlagWrite = KeepFlags | SetFlag(t: Tid, phantom: bool)
  datatype CounterWrite = KeepCounters | SetCounter(v: VmName, vm: Vm)

  function Apply(h: Host, p: Pcpu, e: Effect): Host {
    Host(
      if e.flag.SetFlag? && e.flag.t in h.vcpus
      then h.vcpus[e.flag.t := h.vcpus[e.flag.t].(phantom := e.flag.phantom)] else h.vcpus,
      if e.counter.SetCounter? && e.counter.v in h.vms
      then h.vms[e.counter.v := e.counter.vm] else h.vms,
      h.cores[p := e.core])
  }

  /** One access of a retry loop: the new counter record and where the loop stands. */
  function LoopStep(dir: Dir, vm: Vm, loop: Loop): (Vm, Loop) {
    match loop
    case Read(a) =>
      var l := AfterRead(dir, vm.nbVcpus, a, vm.count);
      (if l.Done? then Missed(dir, vm) else vm, l)
    case Swap(a, was) =>
      var l := AfterSwap(a, was, vm.count);
      (if l.Done? && l.outcome.Wrote? && !AtClamp(dir, vm.nbVcpus, was) then
         vm.(count := Target(dir, vm.nbVcpus, was))
       else if l.Done? then Missed(dir, vm).(exhausted := vm.exhausted + 1)
       else vm, l)
    case Done(_) => (vm, loop)
  }

  function Missed(dir: Dir, vm: Vm): Vm {
    match dir
    case Up => vm.(missedUp := vm.missedUp + 1)
    case Down => vm.(missedDown := vm.missedDown + 1)
  }

  /** The handler's next access on behalf of the incoming task (create_maps.bpf.c:103-203). */
  function RespondIn(h: Host, c: Core, msg: u64): Effect
    requires c.next in h.vcpus
  {
    var v := h.vcpus[c.next];
    match c.phase
    case InSlot => Effect(if msg == 1 then c.(phase := InFlag) else AfterIn(h, c), KeepFlags, KeepCounters)
    case InFlag =>
      if !v.phantom then Effect(AfterIn(h, c), KeepFlags, KeepCounters)
      else Effect(if v.vm in h.vms then c.(phase := InLoop(Read(0))) else AfterIn(h, c),
                  SetFlag(c.next, false), KeepCounters)
    case InLoop(loop) =>
      if v.vm !in h.vms then Effect(c, KeepFlags, KeepCounters) else
      var (vm, l) := LoopStep(Down, h.vms[v.vm], loop);
      Effect(if l.Done? then AfterIn(h, c) else c.(phase := InLoop(l)), KeepFlags, SetCounter(v.vm, vm))
    case _ => Effect(c, KeepFlags, KeepCounters)
  }

  /** The handler's next access on behalf of the outgoing task (create_maps.bpf.c:210-311). */
  function RespondOut(h: Host, c: Core, msg: u64): Effect
    requires c.current in h.vcpus
  {
    var v := h.vcpus[c.current];
    match c.phase
    case OutSlot =>
      var preempted := c.prevState == TASK_RUNNING || c.prevState == TASK_WAKING;
      Effect(c.(phase := if msg == 1 && preempted then OutFlag else Leaving), KeepFlags, KeepCounters)
    case OutFlag =>
      if v.phantom then Effect(c.(phase := Leaving), KeepFlags, KeepCounters)
      else Effect(c.(phase := if v.vm in h.vms then OutLoop(Read(0)) else Leaving),
                  SetFlag(c.current, true), KeepCounters)
    case OutLoop(loop) =>
      if v.vm !in h.vms then Effect(c, KeepFlags, KeepCounters) else
      var (vm, l) := LoopStep(Up, h.vms[v.vm], loop);
      Effect(c.(phase := if l.Done? then Leaving else OutLoop(l)), KeepFlags, SetCounter(v.vm, vm))
    case _ => Effect(c, KeepFlags, KeepCounters)
  }

  predicate Incoming(phase: Phase) {
    phase.InSlot? || phase.InFlag? || phase.InLoop?
  }

  predicate Outgoing(phase: Phase) {
    phase.OutSlot? || phase.OutFlag? || phase.OutLoop?
  }

  function EffectOf(h: Host, c: Core, a: Action): Effect {
    match a
    case Begin(_, next, prevState) =>
      // prev_state is loaded only when the incoming task is a vCPU; otherwise it stays 0.
      var b := c.(next := next, prevState := if next in h.vcpus then prevState else 0);
      Effect(if next in h.vcpus then b.(phase := InSlot) else AfterIn(h, b), KeepFlags, KeepCounters)
    case Advance(_, msg) =>
      if Incoming(c.phase) && c.next in h.vcpus then RespondIn(h, c, msg)
      else if Outgoing(c.phase) && c.current in h.vcpus then RespondOut(h, c, msg)
      else Effect(c.(current := c.next, phase := Quiet), KeepFlags, KeepCounters)
  }

  ghost function Step(h: Host, a: Action): Host
    requires Enabled(h, a)
  {
    Apply(h, a.p, EffectOf(h, h.cores[a.p], a))
  }

  /** After registration: nothing flagged, every counter and tally zero, no handler running. */
  ghost predicate Init(h: Host) {
    && (forall t :: t in h.vcpus ==> !h.vcpus[t].phantom)
    && (forall v :: v in h.vms ==> h.vms[v] == Vm(0, h.vms[v].nbVcpus, 0, 0, 0))
    && (forall p :: p in h.cores ==> h.cores[p].phase.Quiet?)
    && Exclusive(h)
  }

  ghost predicate Legal(h: Host, acts: seq<Action>)
    decreases |acts|, 0
  {
    |acts| == 0 || (Legal(h, acts[..|acts| - 1]) && Enabled(Exec(h, acts[..|acts| - 1]), acts[|acts| - 1]))
  }

  ghost function Exec(h: Host, acts: seq<Action>): Host
    requires Legal(h, acts)
    decreases |acts|, 1
  {
    if |acts| == 0 then h else Step(Exec(h, acts[..|acts| - 1]), acts[|acts| - 1])
  }

  // ---------------------------------------------------------------- invariant

  /** No vCPU thread is on, or moving between, two pCPUs, nor switching to itself. */
  ghost predicate Exclusive(h: Host) {
    && (forall p, q, t |
          p in h.cores && q in h.cores && t in h.vcpus && Involves(h.cores[p], t) && Involves(h.cores[q], t)
          :: p == q)
    && (forall p | p in h.cores && !h.cores[p].phase.Quiet? && h.cores[p].next in h.vcpus
          :: h.cores[p].next != h.cores[p].current)
  }

  ghost predicate LoopOk(dir: Dir, vm: Vm, loop: Loop) {
    match loop
    case Read(a) => a < MAX_TRIES
    case Swap(a, was) => a < MAX_TRIES && !AtClamp(dir, vm.nbVcpus, was)
    case Done(_) => false
  }

  /** A handler in a retry loop has already flipped the flag the loop answers for. */
  ghost predicate CoreOk(h: Host, c: Core) {
    match c.phase
    case Quiet => true
    case Leaving => true
    case InSlot => c.next in h.vcpus
    case InFlag => c.next in h.vcpus
    case InLoop(loop) =>
      && c.next in h.vcpus && !h.vcpus[c.next].phantom
      && h.vcpus[c.next].vm in h.vms && LoopOk(Down, h.vms[h.vcpus[c.next].vm], loop)
    case OutSlot => c.current in h.vcpus
    case OutFlag => c.current in h.vcpus
    case OutLoop(loop) =>
      && c.current in h.vcpus && h.vcpus[c.current].phantom
      && h.vcpus[c.current].vm in h.vms && LoopOk(Up, h.vms[h.vcpus[c.current].vm], loop)
  }

  ghost predicate Shape(h: Host) {
    Exclusive(h) && forall p :: p in h.cores ==> CoreOk(h, h.cores[p])
  }

  ghost predicate IncPendingAt(c: Core, t: Tid) {
    c.phase.OutLoop? && c.current == t
  }

  ghost predicate DecPendingAt(c: Core, t: Tid) {
    c.phase.InLoop? && c.next == t
  }

  /** A handler has set the flag of t and not yet finished its increment. */
  ghost predicate IncPending(h: Host, t: Tid) {
    exists p :: p in h.cores && IncPendingAt(h.cores[p], t)
  }

  ghost predicate DecPending(h: Host, t: Tid) {
    exists p :: p in h.cores && DecPendingAt(h.cores[p], t)
  }

  /** The counter stands for t: flagged and already added, or unflagged and not yet taken off. */
  ghost predicate IsCounted(h: Host, t: Tid)
    requires t in h.vcpus
  {
    (h.vcpus[t].phantom && !IncPending(h, t)) || DecPending(h, t)
  }

  ghost function Registered(h: Host, v: VmName): set<Tid> {
    set t | t in h.vcpus && h.vcpus[t].vm == v
  }

  ghost function Flagged(h: Host, v: VmName): set<Tid> {
    set t | t in h.vcpus && h.vcpus[t].vm == v && h.vcpus[t].phantom
  }

  ghost function PendingIncs(h: Host, v: VmName): set<Tid> {
    set t | t in h.vcpus && h.vcpus[t].vm == v && IncPending(h, t)
  }

  ghost function PendingDecs(h: Host, v: VmName): set<Tid> {
    set t | t in h.vcpus && h.vcpus[t].vm == v && DecPending(h, t)
  }

  ghost function Counted(h: Host, v: VmName): set<Tid> {
    set t | t in h.vcpus && h.vcpus[t].vm == v && IsCounted(h, t)
  }

  /** The counter with the missed updates made good. */
  function Standing(vm: Vm): int {
    vm.count + vm.missedUp - vm.missedDown
  }

  /** The counter is the number of counted vCPUs, off by exactly the missed updates. */
  ghost predicate Balanced(h: Host, v: VmName)
    requires v in h.vms
  {
    Standing(h.vms[v]) == |Counted(h, v)|
  }

  ghost predicate InRange(vm: Vm) {
    0 <= vm.count <= vm.nbVcpus
  }

  ghost predicate Inv(h: Host) {
    && Shape(h)
    && (forall v :: v in h.vms ==> InRange(h.vms[v]) && Balanced(h, v))
  }

  // ---------------------------------------------------------------- the shape is kept

  /** Nobody but p is dealing with t. */
  ghost predicate OnlyAt(h: Host, p: Pcpu, t: Tid) {
    forall q :: q in h.cores && q != p ==> !Involves(h.cores[q], t)
  }

  /** The thread whose flag and counter the handler is working on. */
  function Owner(c: Core): Tid {
    if Incoming(c.phase) then c.next else c.current
  }

  /** What an access may do, whatever its kind, given that its core is in order. */
  ghost predicate EffectOk(h: Host, c: Core, e: Effect) {
    && (e.flag.SetFlag? ==> e.flag.t == Owner(c) && e.flag.t in h.vcpus)
    && (e.counter.SetCounter? ==>
          && Owner(c) in h.vcpus && e.counter.v == h.vcpus[Owner(c)].vm && e.counter.v in h.vms
          && e.counter.vm.nbVcpus == h.vms[e.counter.v].nbVcpus)
    && (e.flag.SetFlag? ==> e.counter.KeepCounters?)
  }

  lemma EffectIsOk(h: Host, c: Core, a: Action)
    requires CoreOk(h, c) && (a.Advance? ==> !c.phase.Quiet?)
    ensures EffectOk(h, c, EffectOf(h, c, a))
  {
  }

  lemma EffectCore(h: Host, c: Core, a: Action)
    requires CoreOk(h, c) && (a.Advance? ==> !c.phase.Quiet?)
    ensures var c' := EffectOf(h, c, a).core;
      && (forall t :: Involves(c', t) ==> Involves(c, t) || (a.Begin? && t == a.next))
      && (c'.phase.Quiet? || (c'.current == c.current && (a.Advance? ==> c'.next == c.next)
                              && (a.Begin? ==> c'.next == a.next)))
  {
  }

  lemma StepKeepsExclusive(h: Host, a: Action)
    requires Shape(h) && Enabled(h, a)
    ensures Exclusive(Step(h, a))
  {
    var c, h' := h.cores[a.p], Step(h, a);
    assert CoreOk(h, c);
    EffectCore(h, c, a);
    forall t | t in h.vcpus && Involves(h'.cores[a.p], t)
      ensures OnlyAt(h, a.p, t)
    {
    }
    ExclusiveKept(h, h', a.p);
  }

  lemma ExclusiveKept(h: Host, h': Host, p: Pcpu)
    requires Exclusive(h) && p in h.cores && h'.vcpus.Keys == h.vcpus.Keys
    requires p in h'.cores && h'.cores == h.cores[p := h'.cores[p]]
    requires forall t :: t in h.vcpus && Involves(h'.cores[p], t) ==> OnlyAt(h, p, t)
    requires var c := h'.cores[p]; c.phase.Quiet? || c.next !in h.vcpus || c.next != c.current
    ensures Exclusive(h')
  {
    forall q, r, t | q in h'.cores && r in h'.cores && t in h'.vcpus
      && Involves(h'.cores[q], t) && Involves(h'.cores[r], t)
      ensures q == r
    {
      assert q == p ==> OnlyAt(h, p, t);
      assert r == p ==> OnlyAt(h, p, t);
    }
  }

  /** The stepping core is in order again afterwards. */
  lemma OwnCoreOk(h: Host, p: Pcpu, a: Action)
    requires p in h.cores && CoreOk(h, h.cores[p]) && (a.Advance? ==> !h.cores[p].phase.Quiet?)
    ensures var e := EffectOf(h, h.cores[p], a); CoreOk(Apply(h, p, e), e.core)
  {
    EffectIsOk(h, h.cores[p], a);
  }

  lemma OtherCoreOk(h: Host, p: Pcpu, e: Effect, c: Core)
    requires p in h.cores && EffectOk(h, h.cores[p], e) && CoreOk(h, c)
    requires !Involves(c, Owner(h.cores[p])) || Owner(h.cores[p]) !in h.vcpus
    ensures CoreOk(Apply(h, p, e), c)
  {
  }

  lemma StepKeepsShape(h: Host, a: Action)
    requires Shape(h) && Enabled(h, a)
    ensures Shape(Step(h, a))
  {
    StepKeepsExclusive(h, a);
    var c, h' := h.cores[a.p], Step(h, a);
    assert CoreOk(h, c);
    OwnCoreOk(h, a.p, a);
    EffectIsOk(h, c, a);
    forall q | q in h'.cores && q != a.p
      ensures CoreOk(h', h'.cores[q])
    {
      assert CoreOk(h, h.cores[q]);
      if c.phase.Quiet? {
        assert Involves(c, Owner(c));
      }
      OtherCoreOk(h, a.p, EffectOf(h, c, a), h.cores[q]);
    }
  }

  // ---------------------------------------------------------------- the balance is kept

  function One(b: bool): nat {
    if b then 1 else 0
  }

  /** IsCounted as seen from the only core that deals with t. */
  ghost predicate CountedAt(c: Core, phantom: bool, t: Tid) {
    (phantom && !IncPendingAt(c, t)) || DecPendingAt(c, t)
  }

  lemma LocalCounted(h: Host, p: Pcpu, t: Tid)
    requires p in h.cores && t in h.vcpus && OnlyAt(h, p, t)
    ensures IsCounted(h, t) <==> CountedAt(h.cores[p], h.vcpus[t].phantom, t)
  {
    assert IncPendingAt(h.cores[p], t) ==> IncPending(h, t);
    assert DecPendingAt(h.cores[p], t) ==> DecPending(h, t);
  }

  /** Only the owner's pending updates move. */
  lemma EffectPending(h: Host, c: Core, a: Action, t: Tid)
    requires CoreOk(h, c) && (a.Advance? ==> !c.phase.Quiet?) && (a.Begin? ==> c.phase.Quiet?)
    requires t != Owner(c)
    ensures !IncPendingAt(c, t) && !DecPendingAt(c, t)
    ensures var c' := EffectOf(h, c, a).core; !IncPendingAt(c', t) && !DecPendingAt(c', t)
  {
  }

  lemma OthersCounted(h: Host, p: Pcpu, e: Effect, t: Tid)
    requires p in h.cores && t in h.vcpus && !(e.flag.SetFlag? && e.flag.t == t)
    requires !IncPendingAt(h.cores[p], t) && !DecPendingAt(h.cores[p], t)
    requires !IncPendingAt(e.core, t) && !DecPendingAt(e.core, t)
    ensures IsCounted(Apply(h, p, e), t) == IsCounted(h, t)
  {
    var h' := Apply(h, p, e);
    assert forall q :: q in h.cores && q != p ==> h'.cores[q] == h.cores[q];
    if IncPending(h, t) {
      var q :| q in h.cores && IncPendingAt(h.cores[q], t);
      assert IncPendingAt(h'.cores[q], t);
    }
    if DecPending(h, t) {
      var q :| q in h.cores && DecPendingAt(h.cores[q], t);
      assert DecPendingAt(h'.cores[q], t);
    }
  }

  /** One access moves the counter by as much as it moves the owner in or out of the count. */
  lemma OwnerDelta(h: Host, c: Core, a: Action)
    requires CoreOk(h, c) && (a.Advance? ==> !c.phase.Quiet?) && (a.Begin? ==> c.phase.Quiet?)
    requires Owner(c) in h.vcpus && h.vcpus[Owner(c)].vm in h.vms
    requires !c.phase.Quiet? && c.next in h.vcpus ==> c.next != c.current
    requires InRange(h.vms[h.vcpus[Owner(c)].vm])
    ensures var e := EffectOf(h, c, a);
      var t, v := Owner(c), h.vcpus[Owner(c)];
      var vm' := if e.counter.SetCounter? then e.counter.vm else h.vms[v.vm];
      var flag' := if e.flag.SetFlag? then e.flag.phantom else v.phantom;
      && InRange(vm')
      && Standing(vm') - Standing(h.vms[v.vm])
         == One(CountedAt(e.core, flag', t)) - One(CountedAt(c, v.phantom, t))
  {
  }

  lemma CountedMoves(h: Host, h': Host, v: VmName, t: Tid)
    requires h'.vcpus.Keys == h.vcpus.Keys && t in h.vcpus && h.vcpus[t].vm == v
    requires forall u :: u in h.vcpus ==> h'.vcpus[u].vm == h.vcpus[u].vm
    requires forall u :: u in h.vcpus && u != t ==> IsCounted(h', u) == IsCounted(h, u)
    ensures |Counted(h', v)| == |Counted(h, v)| + One(IsCounted(h', t)) - One(IsCounted(h, t))
  {
    var a, b := Counted(h, v), Counted(h', v);
    assert b - {t} == a - {t};
    Without(a, t);
    Without(b, t);
  }

  lemma Without(s: set<Tid>, t: Tid)
    ensures |s| == |s - {t}| + One(t in s)
  {
    if t in s {
      assert s == (s - {t}) + {t};
    } else {
      assert s == s - {t};
    }
  }

  lemma CountedStays(h: Host, h': Host, v: VmName)
    requires h'.vcpus.Keys == h.vcpus.Keys
    requires forall u :: u in h.vcpus ==> h'.vcpus[u].vm == h.vcpus[u].vm
    requires forall u :: u in h.vcpus && h.vcpus[u].vm == v ==> IsCounted(h', u) == IsCounted(h, u)
    ensures Counted(h', v) == Counted(h, v)
  {
  }

  lemma StepOthersCounted(h: Host, a: Action)
    requires Shape(h) && Enabled(h, a)
    ensures var h' := Step(h, a);
      && h'.vcpus.Keys == h.vcpus.Keys && h'.vms.Keys == h.vms.Keys
      && (forall u :: u in h.vcpus ==> h'.vcpus[u].vm == h.vcpus[u].vm)
      && (forall u :: u in h.vcpus && u != Owner(h.cores[a.p]) ==> IsCounted(h', u) == IsCounted(h, u))
  {
    var c, h' := h.cores[a.p], Step(h, a);
    assert CoreOk(h, c);
    EffectIsOk(h, c, a);
    forall u | u in h.vcpus && u != Owner(c)
      ensures IsCounted(h', u) == IsCounted(h, u)
    {
      EffectPending(h, c, a, u);
      OthersCounted(h, a.p, EffectOf(h, c, a), u);
    }
  }

  lemma OwnerMoves(h: Host, a: Action, t: Tid)
    requires Inv(h) && Enabled(h, a) && t == Owner(h.cores[a.p]) && t in h.vcpus && h.vcpus[t].vm in h.vms
    ensures var h', v := Step(h, a), h.vcpus[t].vm;
      && v in h'.vms && t in h'.vcpus && InRange(h'.vms[v])
      && Standing(h'.vms[v]) - Standing(h.vms[v]) == One(IsCounted(h', t)) - One(IsCounted(h, t))
  {
    var c, h' := h.cores[a.p], Step(h, a);
    assert CoreOk(h, c) && Involves(c, t);
    assert OnlyAt(h, a.p, t);
    EffectIsOk(h, c, a);
    LocalCounted(h, a.p, t);
    LocalCounted(h', a.p, t);
    OwnerDelta(h, c, a);
  }

  /** Every access keeps every VM's counter in range and in balance. */
  lemma StepKeepsBalance(h: Host, a: Action, v: VmName)
    requires Inv(h) && Enabled(h, a) && v in h.vms
    ensures v in Step(h, a).vms && InRange(Step(h, a).vms[v]) && Balanced(Step(h, a), v)
  {
    var t, h' := Owner(h.cores[a.p]), Step(h, a);
    StepOthersCounted(h, a);
    if t in h.vcpus && h.vcpus[t].vm == v {
      OwnerMoves(h, a, t);
      CountedMoves(h, h', v, t);
    } else {
      assert CoreOk(h, h.cores[a.p]);
      EffectIsOk(h, h.cores[a.p], a);
      CountedStays(h, h', v);
    }
  }

  lemma StepKeepsInv(h: Host, a: Action)
    requires Inv(h) && Enabled(h, a)
    ensures Inv(Step(h, a)) && Step(h, a).vms.Keys == h.vms.Keys && Step(h, a).vcpus.Keys == h.vcpus.Keys
  {
    StepKeepsShape(h, a);
    assert CoreOk(h, h.cores[a.p]);
    EffectIsOk(h, h.cores[a.p], a);
    forall v | v in h.vms
      ensures InRange(Step(h, a).vms[v]) && Balanced(Step(h, a), v)
    {
      StepKeepsBalance(h, a, v);
    }
  }

  // ---------------------------------------------------------------- theorems over every run

  lemma InitInv(h: Host)
    requires Init(h)
    ensures Inv(h)
  {
    forall v | v in h.vms
      ensures Balanced(h, v)
    {
      assert forall t :: t in h.vcpus ==> !IsCounted(h, t);
      assert Counted(h, v) == {};
    }
  }

  lemma {:induction false} RunKeepsInv(h: Host, acts: seq<Action>)
    requires Init(h) && Legal(h, acts)
    ensures Inv(Exec(h, acts))
    ensures Exec(h, acts).vms.Keys == h.vms.Keys && Exec(h, acts).vcpus.Keys == h.vcpus.Keys
  {
    if |acts| == 0 {
      InitInv(h);
    } else {
      RunKeepsInv(h, acts[..|acts| - 1]);
      StepKeepsInv(Exec(h, acts[..|acts| - 1]), acts[|acts| - 1]);
    }
  }

  lemma PendingAgreesWithFlag(h: Host, t: Tid)
    requires Shape(h) && t in h.vcpus
    ensures IncPending(h, t) ==> h.vcpus[t].phantom
    ensures DecPending(h, t) ==> !h.vcpus[t].phantom
  {
    if IncPending(h, t) {
      var p :| p in h.cores && IncPendingAt(h.cores[p], t);
      assert CoreOk(h, h.cores[p]);
    }
    if DecPending(h, t) {
      var p :| p in h.cores && DecPendingAt(h.cores[p], t);
      assert CoreOk(h, h.cores[p]);
    }
  }

  lemma AdjustedCard(f: set<Tid>, i: set<Tid>, d: set<Tid>)
    requires i <= f && d !! f
    ensures |(f - i) + d| == |f| - |i| + |d|
  {
    assert f == (f - i) + i;
  }

  lemma CountedMember(h: Host, v: VmName, t: Tid)
    requires Shape(h)
    ensures t in PendingIncs(h, v) ==> t in Flagged(h, v)
    ensures t in PendingDecs(h, v) ==> t !in Flagged(h, v)
    ensures t in Counted(h, v) <==>
      (t in Flagged(h, v) && t !in PendingIncs(h, v)) || t in PendingDecs(h, v)
  {
    if t in h.vcpus {
      PendingAgreesWithFlag(h, t);
    }
  }

  lemma AdjustedSets(f: set<Tid>, i: set<Tid>, d: set<Tid>, c: set<Tid>)
    requires forall t :: t in i ==> t in f
    requires forall t :: t in d ==> t !in f
    requires forall t :: t in c <==> (t in f && t !in i) || t in d
    ensures |c| == |f| - |i| + |d|
  {
    assert c == (f - i) + d;
    AdjustedCard(f, i, d);
  }

  /** The counted vCPUs are the flagged ones less the pending increments plus the pending decrements. */
  lemma CountedIsFlaggedAdjusted(h: Host, v: VmName)
    requires Shape(h)
    ensures |Counted(h, v)| == |Flagged(h, v)| - |PendingIncs(h, v)| + |PendingDecs(h, v)|
  {
    forall t: Tid
      ensures t in PendingIncs(h, v) ==> t in Flagged(h, v)
      ensures t in PendingDecs(h, v) ==> t !in Flagged(h, v)
      ensures t in Counted(h, v) <==>
        (t in Flagged(h, v) && t !in PendingIncs(h, v)) || t in PendingDecs(h, v)
    {
      CountedMember(h, v, t);
    }
    AdjustedSets(Flagged(h, v), PendingIncs(h, v), PendingDecs(h, v), Counted(h, v));
  }

  /**
   In every interleaving, for every VM, the counter stays in 0..nb_vcpus and differs from
   flagged - pending increments + pending decrements by exactly the updates that were missed,
   by a clamp or by an exhausted retry loop.
   */
  lemma CounterInEveryInterleaving(h: Host, acts: seq<Action>, v: VmName)
    requires Init(h) && Legal(h, acts) && v in h.vms
    ensures var g := Exec(h, acts);
      && v in g.vms
      && 0 <= g.vms[v].count <= g.vms[v].nbVcpus
      && g.vms[v].count == |Flagged(g, v)| - |PendingIncs(g, v)| + |PendingDecs(g, v)|
                           - g.vms[v].missedUp + g.vms[v].missedDown
  {
    RunKeepsInv(h, acts);
    var g := Exec(h, acts);
    CountedIsFlaggedAdjusted(g, v);
  }

  /** The owner of a pending decrement is counted; that of a pending increment is not. */
  lemma OwnerLeavesRoom(h: Host, p: Pcpu)
    requires Shape(h) && p in h.cores
    requires h.cores[p].phase.InLoop? || h.cores[p].phase.OutLoop?
    ensures var t := Owner(h.cores[p]);
      && t in h.vcpus
      && (h.cores[p].phase.InLoop? ==> |Counted(h, h.vcpus[t].vm)| > 0)
      && (h.cores[p].phase.OutLoop? ==> |Counted(h, h.vcpus[t].vm)| < |Registered(h, h.vcpus[t].vm)|)
  {
    var c, t := h.cores[p], Owner(h.cores[p]);
    assert CoreOk(h, c) && Involves(c, t);
    var v := h.vcpus[t].vm;
    assert OnlyAt(h, p, t);
    LocalCounted(h, p, t);
    if c.phase.InLoop? {
      assert t in Counted(h, v);
    } else {
      assert Counted(h, v) <= Registered(h, v) - {t};
      SubsetCard(Counted(h, v), Registered(h, v) - {t});
      Without(Registered(h, v), t);
    }
  }

  /** With no missed update so far and room for every vCPU, a read never meets its clamp. */
  lemma NoClamp(h: Host, a: Action, v: VmName)
    requires Inv(h) && Enabled(h, a) && v in h.vms
    requires h.vms[v].missedUp == 0 && h.vms[v].missedDown == 0
    requires |Registered(h, v)| <= h.vms[v].nbVcpus
    ensures v in Step(h, a).vms
    ensures var vm' := Step(h, a).vms[v];
      (vm'.missedUp == 0 && vm'.missedDown == 0) || vm'.exhausted > h.vms[v].exhausted
  {
    var c := h.cores[a.p];
    assert CoreOk(h, c);
    EffectIsOk(h, c, a);
    if c.phase.InLoop? || c.phase.OutLoop? {
      OwnerLeavesRoom(h, a.p);
    }
  }

  lemma {:induction false} SubsetCard(a: set<Tid>, b: set<Tid>)
    requires a <= b
    ensures |a| <= |b|
  {
    if a == {} {
    } else {
      var t :| t in a;
      SubsetCard(a - {t}, b - {t});
      Without(a, t);
      Without(b, t);
    }
  }

  lemma StepKeepsRegistered(h: Host, a: Action, v: VmName)
    requires Inv(h) && Enabled(h, a) && v in h.vms
    ensures Registered(Step(h, a), v) == Registered(h, v)
    ensures v in Step(h, a).vms && Step(h, a).vms[v].nbVcpus == h.vms[v].nbVcpus
    ensures Step(h, a).vms[v].exhausted >= h.vms[v].exhausted
  {
    assert CoreOk(h, h.cores[a.p]);
    EffectIsOk(h, h.cores[a.p], a);
    StepOthersCounted(h, a);
  }

  /**
   When no retry loop was exhausted and no more vCPUs are registered than nb_vcpus, neither
   clamp ever fired and the counter is exact.
   */
  lemma {:induction false} NoDriftWithoutExhaustion(h: Host, acts: seq<Action>, v: VmName)
    requires Init(h) && Legal(h, acts) && v in h.vms
    requires |Registered(h, v)| <= h.vms[v].nbVcpus
    ensures v in Exec(h, acts).vms
    ensures var g := Exec(h, acts);
      && Registered(g, v) == Registered(h, v) && g.vms[v].nbVcpus == h.vms[v].nbVcpus
      && (g.vms[v].exhausted == 0 ==>
            && g.vms[v].missedUp == 0 && g.vms[v].missedDown == 0
            && g.vms[v].count == |Flagged(g, v)| - |PendingIncs(g, v)| + |PendingDecs(g, v)|)
  {
    if |acts| == 0 {
    } else {
      var before, a := acts[..|acts| - 1], acts[|acts| - 1];
      NoDriftWithoutExhaustion(h, before, v);
      RunKeepsInv(h, before);
      StepKeepsRegistered(Exec(h, before), a, v);
      if Exec(h, before).vms[v].exhausted == 0 {
        NoClamp(Exec(h, before), a, v);
      }
    }
    CounterInEveryInterleaving(h, acts, v);
  }

  /** With no handler in flight the counter is the number of flagged vCPUs iff misses cancel out. */
  lemma ExactAtRest(h: Host, acts: seq<Action>, v: VmName)
    requires Init(h) && Legal(h, acts) && v in h.vms
    requires forall p :: p in Exec(h, acts).cores ==> Exec(h, acts).cores[p].phase.Quiet?
    ensures var g := Exec(h, acts);
      v in g.vms && (g.vms[v].count == |Flagged(g, v)| <==> g.vms[v].missedUp == g.vms[v].missedDown)
  {
    CounterInEveryInterleaving(h, acts, v);
    var g := Exec(h, acts);
    assert PendingIncs(g, v) == {} && PendingDecs(g, v) == {};
  }

  // ---------------------------------------------------------------- what it takes to exhaust a loop

  /** How many accesses of the run changed this VM's counter. */
  ghost function Writes(h: Host, acts: seq<Action>, v: VmName): nat
    requires Legal(h, acts)
  {
    if |acts| == 0 then 0 else
    var before := acts[..|acts| - 1];
    Writes(h, before, v) + Changed(Exec(h, before), Exec(h, acts), v)
  }

  ghost function Changed(g: Host, h: Host, v: VmName): nat {
    if v in g.vms && v in h.vms && g.vms[v].count != h.vms[v].count then 1 else 0
  }

  /** Each try a loop has lost was paid for by a write, the current one too if its read is out of date. */
  ghost predicate Paid(count: s64, loop: Loop, writes: nat) {
    match loop
    case Read(a) => a <= writes
    case Swap(a, was) => a <= writes && (count != was ==> a < writes)
    case Done(_) => true
  }

  ghost predicate CorePaid(h: Host, c: Core, v: VmName, writes: nat)
    requires v in h.vms
  {
    match c.phase
    case InLoop(loop) => c.next in h.vcpus && h.vcpus[c.next].vm == v ==> Paid(h.vms[v].count, loop, writes)
    case OutLoop(loop) => c.current in h.vcpus && h.vcpus[c.current].vm == v ==> Paid(h.vms[v].count, loop, writes)
    case _ => true
  }

  /** One access of a loop on this VM. */
  lemma LoopPays(dir: Dir, vm: Vm, loop: Loop, writes: nat)
    requires Paid(vm.count, loop, writes)
    ensures var (vm', l) := LoopStep(dir, vm, loop);
      var writes' := writes + if vm'.count != vm.count then 1 else 0;
      && Paid(vm'.count, l, writes')
      && (vm'.exhausted != vm.exhausted ==> writes >= MAX_TRIES || !LoopOk(dir, vm, loop))
  {
  }

  lemma OwnCorePays(h: Host, p: Pcpu, a: Action, v: VmName, writes: nat)
    requires p in h.cores && v in h.vms && CoreOk(h, h.cores[p]) && CorePaid(h, h.cores[p], v, writes)
    requires (a.Advance? ==> !h.cores[p].phase.Quiet?) && (a.Begin? ==> h.cores[p].phase.Quiet?)
    ensures var c, e := h.cores[p], EffectOf(h, h.cores[p], a);
      var h' := Apply(h, p, e);
      && v in h'.vms
      && var writes' := writes + if h'.vms[v].count != h.vms[v].count then 1 else 0;
      && CorePaid(h', e.core, v, writes')
      && (h'.vms[v].exhausted != h.vms[v].exhausted ==> writes >= MAX_TRIES)
  {
    var c := h.cores[p];
    EffectIsOk(h, c, a);
    if c.phase.InLoop? && h.vcpus[c.next].vm == v {
      LoopPays(Down, h.vms[v], c.phase.loop, writes);
    } else if c.phase.OutLoop? && h.vcpus[c.current].vm == v {
      LoopPays(Up, h.vms[v], c.phase.loop, writes);
    }
  }

  lemma OtherCorePays(h: Host, p: Pcpu, e: Effect, c: Core, v: VmName, writes: nat)
    requires p in h.cores && v in h.vms && EffectOk(h, h.cores[p], e) && CorePaid(h, c, v, writes)
    ensures var h' := Apply(h, p, e);
      && v in h'.vms
      && CorePaid(h', c, v, writes + if h'.vms[v].count != h.vms[v].count then 1 else 0)
  {
  }

  ghost predicate AllPaid(h: Host, v: VmName, writes: nat)
    requires v in h.vms
  {
    forall p :: p in h.cores ==> CorePaid(h, h.cores[p], v, writes)
  }

  lemma StepPays(h: Host, a: Action, v: VmName, writes: nat)
    requires Shape(h) && Enabled(h, a) && v in h.vms && AllPaid(h, v, writes)
    ensures var h' := Step(h, a);
      && v in h'.vms
      && AllPaid(h', v, writes + if h'.vms[v].count != h.vms[v].count then 1 else 0)
      && (h'.vms[v].exhausted != h.vms[v].exhausted ==> writes >= MAX_TRIES)
  {
    var h', c := Step(h, a), h.cores[a.p];
    assert CoreOk(h, c) && CorePaid(h, c, v, writes);
    OwnCorePays(h, a.p, a, v, writes);
    EffectIsOk(h, c, a);
    forall q | q in h'.cores && q != a.p
      ensures CorePaid(h', h'.cores[q], v, writes + if h'.vms[v].count != h.vms[v].count then 1 else 0)
    {
      OtherCorePays(h, a.p, EffectOf(h, c, a), h.cores[q], v, writes);
    }
  }

  ghost predicate PaidFor(h: Host, v: VmName, writes: nat) {
    v in h.vms && AllPaid(h, v, writes) && (h.vms[v].exhausted > 0 ==> writes >= MAX_TRIES)
  }

  lemma StepPaysFor(h: Host, a: Action, v: VmName, writes: nat)
    requires Shape(h) && Enabled(h, a) && PaidFor(h, v, writes)
    ensures PaidFor(Step(h, a), v, writes + Changed(h, Step(h, a), v))
  {
    StepPays(h, a, v, writes);
  }

  lemma RunShape(h: Host, acts: seq<Action>)
    requires Init(h) && Legal(h, acts)
    ensures Shape(Exec(h, acts))
  {
    RunKeepsInv(h, acts);
  }

  lemma InitPaidFor(h: Host, v: VmName)
    requires Init(h) && v in h.vms
    ensures PaidFor(h, v, 0)
  {
  }

  lemma WritesStep(h: Host, acts: seq<Action>, v: VmName, g: Host, g': Host)
    requires |acts| > 0 && Legal(h, acts) && g == Exec(h, acts[..|acts| - 1]) && g' == Exec(h, acts)
    ensures Writes(h, acts, v) == Writes(h, acts[..|acts| - 1], v) + Changed(g, g', v)
    ensures Enabled(g, acts[|acts| - 1]) && g' == Step(g, acts[|acts| - 1])
  {
  }

  lemma NextPaidFor(g: Host, a: Action, g': Host, v: VmName, writes: nat, writes': nat)
    requires Shape(g) && Enabled(g, a) && g' == Step(g, a) && PaidFor(g, v, writes)
    requires writes' == writes + Changed(g, g', v)
    ensures PaidFor(g', v, writes')
  {
    StepPaysFor(g, a, v, writes);
  }

  lemma {:induction false} LoopsArePaid(h: Host, acts: seq<Action>, v: VmName)
    requires Init(h) && Legal(h, acts) && v in h.vms
    ensures PaidFor(Exec(h, acts), v, Writes(h, acts, v))
  {
    if |acts| == 0 {
      InitPaidFor(h, v);
    } else {
      LoopsArePaid(h, acts[..|acts| - 1], v);
      RunShape(h, acts[..|acts| - 1]);
      var g, g' := Exec(h, acts[..|acts| - 1]), Exec(h, acts);
      WritesStep(h, acts, v, g, g');
      NextPaidFor(g, acts[|acts| - 1], g', v, Writes(h, acts[..|acts| - 1], v), Writes(h, acts, v));
    }
  }

  /**
   A loop gives up only after 24 writes to the same counter got between its reads and swaps.
   So in every run with fewer than 24 counter writes, and room for every vCPU, the counter is
   exact: flagged less pending increments plus pending decrements.
   */
  lemma ExhaustionNeedsWrites(h: Host, acts: seq<Action>, v: VmName)
    requires Init(h) && Legal(h, acts) && v in h.vms
    ensures v in Exec(h, acts).vms
    ensures Exec(h, acts).vms[v].exhausted > 0 ==> Writes(h, acts, v) >= MAX_TRIES
    ensures var g := Exec(h, acts);
      Writes(h, acts, v) < MAX_TRIES && |Registered(h, v)| <= h.vms[v].nbVcpus ==>
        g.vms[v].count == |Flagged(g, v)| - |PendingIncs(g, v)| + |PendingDecs(g, v)|
  {
    LoopsArePaid(h, acts, v);
    if |Registered(h, v)| <= h.vms[v].nbVcpus {
      NoDriftWithoutExhaustion(h, acts, v);
    }
  }
}

/**
 VM id allocation (host_register_vm in host_ivshmem.c): an atomic counter, a capacity check
 that steps back, and a backend creation that may fail and step back too.
 */
module VmIds {
  import opened MachineInts
  import opened ShmemLayout

  const MAX_DEVICES: nat := 256

  type Caller = nat

  /** How far one call has got. Leaked: kzalloc failed after the id was taken. */
  datatype Phase =
    | Ready
    | Holding(id: int)
    | OverCapacity
    | Undoing(id: int)
    | Leaked(id: int)
    | Registered(id: int)
    | Refused

  datatype Registry = Registry(next: int, calls: map<Caller, Phase>)

  datatype Action =
    | Fetch(t: Caller)
    | StepBack(t: Caller)
    | NoMemory(t: Caller)
    | BackendFails(t: Caller)
    | Succeed(t: Caller)

  predicate Enabled(r: Registry, a: Action) {
    && a.t in r.calls
    && match a
       case Fetch(t) => r.calls[t].Ready?
       case StepBack(t) => r.calls[t].OverCapacity? || r.calls[t].Undoing?
       case NoMemory(t) => r.calls[t].Holding?
       case BackendFails(t) => r.calls[t].Holding?
       case Succeed(t) => r.calls[t].Holding?
  }

  function Step(r: Registry, a: Action): Registry
    requires Enabled(r, a)
  {
    match a
    case Fetch(t) =>
      Registry(r.next + 1, r.calls[t := if r.next + 1 >= MAX_DEVICES then OverCapacity else Holding(r.next)])
    case StepBack(t) => Registry(r.next - 1, r.calls[t := Refused])
    case NoMemory(t) => r.(calls := r.calls[t := Leaked(r.calls[t].id)])
    case BackendFails(t) => r.(calls := r.calls[t := Undoing(r.calls[t].id)])
    case Succeed(t) => r.(calls := r.calls[t := Registered(r.calls[t].id)])
  }

  ghost predicate Legal(r: Registry, acts: seq<Action>)
    decreases |acts|, 0
  {
    |acts| == 0 || (Legal(r, acts[..|acts| - 1]) && Enabled(Exec(r, acts[..|acts| - 1]), acts[|acts| - 1]))
  }

  ghost function Exec(r: Registry, acts: seq<Action>): Registry
    requires Legal(r, acts)
    decreases |acts|, 1
  {
    if |acts| == 0 then r else Step(Exec(r, acts[..|acts| - 1]), acts[|acts| - 1])
  }

  ghost predicate Init(r: Registry) {
    r.next == 0 && forall t :: t in r.calls ==> r.calls[t].Ready?
  }

  /** The id belongs to this call: in set-up, leaked, naming a device, or not given back yet. */
  ghost predicate Holds(r: Registry, t: Caller, id: int) {
    && t in r.calls
    && (r.calls[t].Holding? || r.calls[t].Undoing? || r.calls[t].Leaked? || r.calls[t].Registered?)
    && r.calls[t].id == id
  }

  ghost predicate Held(r: Registry, id: int) {
    exists t :: Holds(r, t, id)
  }

  ghost predicate Distinct(r: Registry) {
    forall t, u, id :: Holds(r, t, id) && Holds(r, u, id) ==> t == u
  }

  /** Calls that took an id past the end and have not stepped back yet. */
  ghost function Overshoots(r: Registry): set<Caller> {
    set t | t in r.calls && r.calls[t].OverCapacity?
  }

  /** Ids handed out and not given back: the counter less the overshoots. */
  ghost function Issued(r: Registry): int {
    r.next - |Overshoots(r)|
  }

  /** The ids held are exactly those below Issued, each once; with an overshoot pending every fetch overshoots too. */
  ghost predicate Inv(r: Registry) {
    && 0 <= Issued(r) < MAX_DEVICES
    && (Overshoots(r) != {} ==> Issued(r) >= MAX_DEVICES - 2)
    && (forall t, id :: Holds(r, t, id) ==> 0 <= id < Issued(r))
    && Distinct(r)
    && (forall id :: 0 <= id < Issued(r) ==> Held(r, id))
  }

  /**
   When a failed creation may step back: its id is the newest one issued, and no capacity
   rollback is pending unless every id is issued.
   */
  ghost predicate SafeRollback(r: Registry, t: Caller)
    requires t in r.calls && r.calls[t].Undoing?
  {
    && r.calls[t].id == Issued(r) - 1
    && (Overshoots(r) == {} || Issued(r) == MAX_DEVICES - 1)
  }

  /** Every failed creation in the run steps back at a moment when that is safe. */
  ghost predicate Careful(r: Registry, acts: seq<Action>)
    requires Legal(r, acts)
  {
    |acts| == 0 ||
    (var before, a := acts[..|acts| - 1], acts[|acts| - 1];
     && Careful(r, before)
     && (a.StepBack? && Exec(r, before).calls[a.t].Undoing? ==> SafeRollback(Exec(r, before), a.t)))
  }

  lemma FetchKeepsInv(r: Registry, t: Caller)
    requires Inv(r) && Enabled(r, Fetch(t))
    ensures Inv(Step(r, Fetch(t)))
  {
    var r' := Step(r, Fetch(t));
    if r.next + 1 >= MAX_DEVICES {
      assert Overshoots(r') == Overshoots(r) + {t};
      SameHolders(r, r');
    } else {
      assert Overshoots(r) == {} by {
        assert |Overshoots(r)| == 0;
      }
      assert Overshoots(r') == {};
      assert forall u, id :: Holds(r', u, id) <==> Holds(r, u, id) || (u == t && id == r.next);
      forall id | 0 <= id < Issued(r')
        ensures Held(r', id)
      {
        if id == r.next {
          assert Holds(r', t, id);
        } else {
          assert Held(r, id);
          var u :| Holds(r, u, id);
          assert Holds(r', u, id);
        }
      }
    }
  }

  lemma SameHolders(r: Registry, r': Registry)
    requires forall u, id :: Holds(r', u, id) <==> Holds(r, u, id)
    ensures forall id :: Held(r, id) ==> Held(r', id)
  {
    forall id | Held(r, id)
      ensures Held(r', id)
    {
      var u :| Holds(r, u, id);
      assert Holds(r', u, id);
    }
  }

  /** Everything but a fetch and the step back of a failed creation leaves the holders alone. */
  lemma OtherKeepsInv(r: Registry, a: Action)
    requires Inv(r) && Enabled(r, a) && !a.Fetch? && (a.StepBack? ==> r.calls[a.t].OverCapacity?)
    ensures Inv(Step(r, a))
  {
    var r' := Step(r, a);
    SameHolders(r, r');
    if a.StepBack? {
      assert Overshoots(r') == Overshoots(r) - {a.t};
    } else {
      assert Overshoots(r') == Overshoots(r);
    }
  }

  /** The step back of a failed creation keeps the invariant exactly if it is safe. */
  lemma RollbackKeepsInvIff(r: Registry, t: Caller)
    requires Inv(r) && t in r.calls && r.calls[t].Undoing?
    ensures Inv(Step(r, StepBack(t))) <==> SafeRollback(r, t)
  {
    var r', id := Step(r, StepBack(t)), r.calls[t].id;
    assert Overshoots(r') == Overshoots(r);
    assert forall u, i :: Holds(r', u, i) <==> Holds(r, u, i) && u != t;
    assert Holds(r, t, id);
    if id != Issued(r) - 1 {
      assert Held(r, Issued(r) - 1);
      var u :| Holds(r, u, Issued(r) - 1);
      assert Holds(r', u, Issued(r'));
    } else {
      forall i | 0 <= i < Issued(r')
        ensures Held(r', i)
      {
        assert Held(r, i);
        var u :| Holds(r, u, i);
        assert Holds(r', u, i);
      }
    }
  }

  lemma StepKeepsInv(r: Registry, a: Action)
    requires Inv(r) && Enabled(r, a)
    requires a.StepBack? && r.calls[a.t].Undoing? ==> SafeRollback(r, a.t)
    ensures Inv(Step(r, a))
  {
    if a.Fetch? {
      FetchKeepsInv(r, a.t);
    } else if a.StepBack? && r.calls[a.t].Undoing? {
      RollbackKeepsInvIff(r, a.t);
    } else {
      OtherKeepsInv(r, a);
    }
  }

  lemma {:induction false} CarefulRunKeepsInv(r: Registry, acts: seq<Action>)
    requires Inv(r) && Legal(r, acts) && Careful(r, acts)
    ensures Inv(Exec(r, acts))
  {
    if |acts| == 0 {
    } else {
      CarefulRunKeepsInv(r, acts[..|acts| - 1]);
      StepKeepsInv(Exec(r, acts[..|acts| - 1]), acts[|acts| - 1]);
    }
  }

  /**
   In every interleaving, failed creations included, in which those step back only when that
   is safe, ids are pairwise distinct and every device number id + 1 lies in 1..255.
   */
  lemma IdsDistinct(r: Registry, acts: seq<Action>)
    requires Init(r) && Legal(r, acts) && Careful(r, acts)
    ensures Distinct(Exec(r, acts))
    ensures forall t, id :: Holds(Exec(r, acts), t, id) ==> 1 <= id + 1 < MAX_DEVICES
  {
    assert Overshoots(r) == {};
    CarefulRunKeepsInv(r, acts);
  }

  /** Only capacity rollbacks: every such run is careful. */
  lemma {:induction false} NoFailureIsCareful(r: Registry, acts: seq<Action>)
    requires Init(r) && Legal(r, acts)
    requires forall k :: 0 <= k < |acts| ==> !acts[k].BackendFails?
    ensures Careful(r, acts) && forall t :: t in Exec(r, acts).calls ==> !Exec(r, acts).calls[t].Undoing?
  {
    if |acts| == 0 {
    } else {
      NoFailureIsCareful(r, acts[..|acts| - 1]);
    }
  }

  // ---------------------------------------------------------------- what an unsafe step back leads to

  lemma CarefulAppended(r: Registry, acts: seq<Action>, a: Action)
    requires Legal(r, acts) && Careful(r, acts) && Enabled(Exec(r, acts), a)
    requires a.StepBack? ==> !Exec(r, acts).calls[a.t].Undoing?
    ensures Legal(r, acts + [a]) && Careful(r, acts + [a])
  {
    Appended(r, acts, a);
    assert (acts + [a])[..|acts|] == acts;
  }

  /** Take one more action that gives nothing back. */
  lemma Then(r: Registry, acts: seq<Action>, a: Action) returns (acts': seq<Action>)
    requires Legal(r, acts) && Careful(r, acts) && Enabled(Exec(r, acts), a)
    requires a.StepBack? ==> !Exec(r, acts).calls[a.t].Undoing?
    ensures Legal(r, acts') && Careful(r, acts') && Exec(r, acts') == Step(Exec(r, acts), a)
  {
    acts' := acts + [a];
    Appended(r, acts, a);
    CarefulAppended(r, acts, a);
  }

  lemma OvershootStepsBack(r: Registry, t: Caller)
    requires t in Overshoots(r)
    ensures Enabled(r, StepBack(t)) && |Overshoots(Step(r, StepBack(t)))| == |Overshoots(r)| - 1
  {
    assert Overshoots(Step(r, StepBack(t))) == Overshoots(r) - {t};
  }

  lemma SomeOvershoot(r: Registry) returns (t: Caller)
    requires |Overshoots(r)| > 0
    ensures t in Overshoots(r)
  {
    assert Overshoots(r) != {};
    t :| t in Overshoots(r);
  }

  /** n capacity rollbacks have happened between r and e, and nothing else. */
  ghost predicate Drained(r: Registry, e: Registry, n: nat) {
    && e.next == r.next - n && e.calls.Keys == r.calls.Keys && |Overshoots(e)| == |Overshoots(r)| - n
    && forall t :: t in r.calls && !r.calls[t].OverCapacity? ==> e.calls[t] == r.calls[t]
  }

  lemma DrainedOnce(r: Registry, e: Registry, n: nat, t: Caller)
    requires Drained(r, e, n) && t in Overshoots(e)
    ensures Enabled(e, StepBack(t)) && Drained(r, Step(e, StepBack(t)), n + 1)
  {
    OvershootStepsBack(e, t);
  }

  /** n of the pending capacity rollbacks happen. */
  lemma {:induction false} Drain(r: Registry, n: nat) returns (acts: seq<Action>)
    requires n <= |Overshoots(r)|
    ensures Legal(r, acts) && Careful(r, acts) && Drained(r, Exec(r, acts), n)
  {
    if n == 0 {
      acts := [];
    } else {
      var before := Drain(r, n - 1);
      var t := SomeOvershoot(Exec(r, before));
      DrainedOnce(r, Exec(r, before), n - 1, t);
      acts := Then(r, before, StepBack(t));
    }
  }

  /** An id that is still held is issued again by the next caller. */
  lemma OlderIdDuplicates(r: Registry, t: Caller, a: Caller) returns (acts: seq<Action>)
    requires Inv(r) && t in r.calls && r.calls[t].Undoing? && r.calls[t].id != Issued(r) - 1
    requires a in r.calls && r.calls[a].Ready?
    ensures var r' := Step(r, StepBack(t)); Legal(r', acts) && Careful(r', acts) && !Distinct(Exec(r', acts))
  {
    var r', newest := Step(r, StepBack(t)), Issued(r) - 1;
    assert Holds(r, t, r.calls[t].id) && Held(r, newest);
    var u :| Holds(r, u, newest);
    assert Overshoots(r') == Overshoots(r);
    var drained := Drain(r', |Overshoots(r')|);
    acts := Then(r', drained, Fetch(a));
    assert Holds(Exec(r', acts), u, newest) && Holds(Exec(r', acts), a, newest);
  }

  /** With a capacity rollback pending and an id free already, two callers can be handed the last id. */
  lemma PendingOvershootDuplicates(r: Registry, t: Caller, a: Caller, b: Caller) returns (acts: seq<Action>)
    requires Inv(r) && t in r.calls && r.calls[t].Undoing? && r.calls[t].id == Issued(r) - 1
    requires Overshoots(r) != {} && Issued(r) != MAX_DEVICES - 1
    requires a != b && a in r.calls && b in r.calls && r.calls[a].Ready? && r.calls[b].Ready?
    ensures var r' := Step(r, StepBack(t)); Legal(r', acts) && Careful(r', acts) && !Distinct(Exec(r', acts))
  {
    var r', last := Step(r, StepBack(t)), MAX_DEVICES - 2;
    assert Overshoots(r') == Overshoots(r);
    acts := Drain(r', |Overshoots(r')| - 1);
    var o := SomeOvershoot(Exec(r', acts));
    acts := Then(r', acts, Fetch(a));
    acts := Then(r', acts, StepBack(o));
    acts := Then(r', acts, Fetch(b));
    assert Holds(Exec(r', acts), a, last) && Holds(Exec(r', acts), b, last);
  }

  /**
   The exact condition for a failed creation to step back: afterwards, in every continuation
   that is careful itself, ids stay distinct if and only if this step back was safe.
   */
  lemma RollbackSafeIff(r: Registry, t: Caller, a: Caller, b: Caller)
    requires Inv(r) && t in r.calls && r.calls[t].Undoing?
    requires a != b && a in r.calls && b in r.calls && r.calls[a].Ready? && r.calls[b].Ready?
    ensures var r' := Step(r, StepBack(t));
      (forall acts :: Legal(r', acts) && Careful(r', acts) ==> Distinct(Exec(r', acts))) <==> SafeRollback(r, t)
  {
    var r' := Step(r, StepBack(t));
    if SafeRollback(r, t) {
      RollbackKeepsInvIff(r, t);
      forall acts | Legal(r', acts) && Careful(r', acts)
        ensures Distinct(Exec(r', acts))
      {
        CarefulRunKeepsInv(r', acts);
      }
    } else if r.calls[t].id != Issued(r) - 1 {
      var acts := OlderIdDuplicates(r, t, a);
    } else {
      var acts := PendingOvershootDuplicates(r, t, a, b);
    }
  }

  /** So two registrations can end with the same id: the first of two calls fails after the second took its id. */
  lemma RollbackCanDuplicate()
    ensures var acts := [Fetch(0), Fetch(1), Succeed(1), BackendFails(0), StepBack(0), Fetch(2), Succeed(2)];
      var r := Registry(0, map[0 := Ready, 1 := Ready, 2 := Ready]);
      Init(r) && Legal(r, acts) && Holds(Exec(r, acts), 1, 1) && Holds(Exec(r, acts), 2, 1)
  {
    var r := Registry(0, map[0 := Ready, 1 := Ready, 2 := Ready]);
    Appended(r, [], Fetch(0));
    var a1 := [] + [Fetch(0)];
    Appended(r, a1, Fetch(1));
    var a2 := a1 + [Fetch(1)];
    Appended(r, a2, Succeed(1));
    var a3 := a2 + [Succeed(1)];
    Appended(r, a3, BackendFails(0));
    var a4 := a3 + [BackendFails(0)];
    Appended(r, a4, StepBack(0));
    var a5 := a4 + [StepBack(0)];
    Appended(r, a5, Fetch(2));
    var a6 := a5 + [Fetch(2)];
    Appended(r, a6, Succeed(2));
    assert a6 + [Succeed(2)] == [Fetch(0), Fetch(1), Succeed(1), BackendFails(0), StepBack(0), Fetch(2), Succeed(2)];
  }

  /** n callers in turn have taken ids 0, 1, ... and, past the end, an overshoot. */
  ghost function Filled(n: nat): Registry {
    Registry(n, map t: Caller | 0 <= t < MAX_DEVICES + 2 ::
      if t >= n then Ready else if t + 1 >= MAX_DEVICES then OverCapacity else Holding(t))
  }

  lemma {:induction false} Fill(n: nat) returns (acts: seq<Action>)
    requires n <= MAX_DEVICES
    ensures Legal(Filled(0), acts) && Exec(Filled(0), acts) == Filled(n)
  {
    if n == 0 {
      acts := [];
    } else {
      var before := Fill(n - 1);
      acts := before + [Fetch(n - 1)];
      Appended(Filled(0), before, Fetch(n - 1));
    }
  }

  /**
   The other way to a duplicate: with the registry full and one capacity rollback pending, the
   holders of ids 254 and 253 fail in turn, each holding the newest id, and id 254 is handed
   out twice.
   */
  lemma OvershootCanDuplicate() returns (acts: seq<Action>)
    ensures Init(Filled(0)) && Legal(Filled(0), acts)
    ensures var tail := [BackendFails(254), StepBack(254), BackendFails(253), StepBack(253),
                         Fetch(256), StepBack(255), Fetch(257)];
      |acts| >= |tail| && acts[|acts| - |tail|..] == tail
    ensures Holds(Exec(Filled(0), acts), 256, 254) && Holds(Exec(Filled(0), acts), 257, 254)
  {
    var r := Filled(0);
    var a0 := Fill(MAX_DEVICES);
    Appended(r, a0, BackendFails(254));
    var a1 := a0 + [BackendFails(254)];
    Appended(r, a1, StepBack(254));
    var a2 := a1 + [StepBack(254)];
    Appended(r, a2, BackendFails(253));
    var a3 := a2 + [BackendFails(253)];
    Appended(r, a3, StepBack(253));
    var a4 := a3 + [StepBack(253)];
    Appended(r, a4, Fetch(256));
    var a5 := a4 + [Fetch(256)];
    Appended(r, a5, StepBack(255));
    var a6 := a5 + [StepBack(255)];
    Appended(r, a6, Fetch(257));
    acts := a6 + [Fetch(257)];
  }

  lemma Appended(r: Registry, acts: seq<Action>, a: Action)
    requires Legal(r, acts) && Enabled(Exec(r, acts), a)
    ensures Legal(r, acts + [a]) && Exec(r, acts + [a]) == Step(Exec(r, acts), a)
  {
    assert (acts + [a])[..|acts|] == acts;
  }

  // ---------------------------------------------------------------- one call after the other

  /** What the kernel answers one call: no memory, a failed backend, or a device. */
  datatype Answer = NoMem | CreateFails(err: int) | Created

  const ENOSPC: int := -28
  const ENOMEM: int := -12

  /** registry.next_vm_id and registry.devices[], by backend size; 0 stands for a null pointer. */
  class HostRegistry {
    var nextVmId: int
    const devices: array<u64>

    /** Every device lies between slot 1 and the counter. */
    ghost predicate Valid()
      reads this, devices
    {
      && devices.Length == MAX_DEVICES && 0 <= nextVmId < MAX_DEVICES
      && forall j :: 0 <= j < MAX_DEVICES && devices[j] != 0 ==> 1 <= j <= nextVmId
    }

    constructor ()
      ensures Valid() && fresh(devices) && nextVmId == 0 && forall j :: 0 <= j < MAX_DEVICES ==> devices[j] == 0
    {
      devices := new u64[MAX_DEVICES](_ => 0);
      nextVmId := 0;
    }

    /**
     host_register_vm. A success fills a slot that was empty, never slot 0, with a backend of
     the requested size; every failure leaves all devices alone.
     */
    method RegisterVm(nbCpu: u32, answer: Answer) returns (ret: int, vmId: int)
      requires Valid() && (answer.CreateFails? ==> answer.err < 0)
      modifies this, devices
      ensures Valid()
      ensures ret == if old(nextVmId) + 1 >= MAX_DEVICES then ENOSPC
                     else match answer case NoMem => ENOMEM case CreateFails(err) => err case Created => 0
      ensures ret == 0 ==>
        && 1 <= vmId + 1 < MAX_DEVICES && old(devices[..])[vmId + 1] == 0
        && devices[..] == old(devices[..])[vmId + 1 := BackendSize(nbCpu)]
      ensures ret != 0 ==> devices[..] == old(devices[..])
      ensures nextVmId == old(nextVmId)
        + if old(nextVmId) + 1 < MAX_DEVICES && !answer.CreateFails? then 1 else 0
    {
      vmId := nextVmId;
      nextVmId := nextVmId + 1;
      if vmId + 1 >= MAX_DEVICES {
        nextVmId := nextVmId - 1;
        return ENOSPC, vmId;
      }
      if answer.NoMem? {
        return ENOMEM, vmId;
      }
      if answer.CreateFails? {
        nextVmId := nextVmId - 1;
        return answer.err, vmId;
      }
      devices[vmId + 1] := BackendSize(nbCpu);
      return 0, vmId;
    }
  }
}

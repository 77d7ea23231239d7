/**
 Registering a VM in the three pinned maps and cleaning it up again (register_vm.h,
 cleanup.c). The bpffs directories and pins are outside this model.
 */
module VmRegistration {
  import opened MachineInts
  import opened VmKeys
  import B = SampleBuffers
  import H = PhantomCounter
  import W = PhantomWindow
  import WeightedAverage

  const MAX_VMS: nat := 10_000_000
  const MAX_VCPUS: nat := 10_000_000
  const MAX_REGISTRY: nat := 1024
  const FIRST_CAPACITY: nat := 1024

  datatype Vm =
    Vm(phantomCount: s64, nbVcpus: u32, index1: u32, index2: u32, collectingInBuff1: bool, historyIndex: u32)

  /** struct vcpu_t; vm is the stored name up to its terminator. */
  type Vcpu = H.Vcpu

  /** struct qmp_vpcu: C ints, -1 where the reply had no number. */
  datatype QmpVcpu = QmpVcpu(cpuIndex: int, threadId: int)

  datatype Maps = Maps(vms: map<string, Vm>, vcpus: map<u32, Vcpu>, registry: map<string, u32>)

  /** bpf_map_update_elem on a full map refuses a new key. */
  predicate Refused<K, V>(m: map<K, V>, key: K, max: nat) {
    key !in m && |m| >= max
  }

  // ---------------------------------------------------------------- collect, then delete

  /** The vCPU map without the entries stored under this name. */
  function Without(vcpus: map<u32, Vcpu>, name: string): map<u32, Vcpu> {
    map t | t in vcpus && vcpus[t].vm != name :: vcpus[t]
  }

  /** Keys of this VM, in iteration order. */
  function Matching(vcpus: map<u32, Vcpu>, keys: seq<u32>, name: string): seq<u32> {
    if |keys| == 0 then [] else
    var last := keys[|keys| - 1];
    Matching(vcpus, keys[..|keys| - 1], name) + (if last in vcpus && vcpus[last].vm == name then [last] else [])
  }

  lemma {:induction false} MatchingMembers(vcpus: map<u32, Vcpu>, keys: seq<u32>, name: string, t: u32)
    ensures t in Matching(vcpus, keys, name) <==> t in keys && t in vcpus && vcpus[t].vm == name
  {
    if |keys| == 0 {
    } else {
      MatchingMembers(vcpus, keys[..|keys| - 1], name, t);
      assert keys == keys[..|keys| - 1] + [keys[|keys| - 1]];
    }
  }

  /** Deleting what was collected over all keys leaves exactly the other VMs' entries. */
  lemma DeleteMatching(vcpus: map<u32, Vcpu>, keys: seq<u32>, name: string)
    requires forall t :: t in vcpus ==> t in keys
    ensures vcpus - (set t | t in Matching(vcpus, keys, name)) == Without(vcpus, name)
  {
    forall t | t in vcpus
      ensures t in Matching(vcpus, keys, name) <==> vcpus[t].vm == name
    {
      MatchingMembers(vcpus, keys, name, t);
    }
  }

  // ---------------------------------------------------------------- registration and cleanup

  function FreshVm(nbVcpus: int): Vm {
    Vm(0, AsU32(nbVcpus), 0, 0, false, 0)
  }

  function Entry(q: QmpVcpu, name: string): Vcpu {
    H.Vcpu(AsU32(q.cpuIndex), Truncated(name), false)
  }

  /** The vCPU map after the first n entries of the list were written. */
  function Inserted(vcpus: map<u32, Vcpu>, list: seq<QmpVcpu>, name: string, n: nat): map<u32, Vcpu>
    requires n <= |list|
  {
    if n == 0 then vcpus
    else Inserted(vcpus, list, name, n - 1)[AsU32(list[n - 1].threadId) := Entry(list[n - 1], name)]
  }

  ghost predicate Listed(list: seq<QmpVcpu>, n: nat, t: u32)
    requires n <= |list|
  {
    exists j :: 0 <= j < n && AsU32(list[j].threadId) == t
  }

  /** Written entries carry this VM's name and a clear flag; all others are untouched. */
  lemma {:induction false} InsertedEntries(vcpus: map<u32, Vcpu>, list: seq<QmpVcpu>, name: string, n: nat, t: u32)
    requires n <= |list|
    ensures var r := Inserted(vcpus, list, name, n);
      && (t in r <==> t in vcpus || Listed(list, n, t))
      && (Listed(list, n, t) ==> r[t].vm == Truncated(name) && !r[t].phantom)
      && (t in vcpus && !Listed(list, n, t) ==> r[t] == vcpus[t])
  {
    if n == 0 {
    } else {
      InsertedEntries(vcpus, list, name, n - 1, t);
      if Listed(list, n - 1, t) {
        var j :| 0 <= j < n - 1 && AsU32(list[j].threadId) == t;
        assert Listed(list, n, t);
      }
    }
  }

  /** Entry j is the last one of the first n with its thread id. */
  ghost predicate LastListed(list: seq<QmpVcpu>, n: nat, j: nat)
    requires n <= |list|
  {
    j < n && forall i :: j < i < n ==> AsU32(list[i].threadId) != AsU32(list[j].threadId)
  }

  /** The entry written last for a thread id is the one stored: its vCPU index, this VM's name, no flag. */
  lemma {:induction false} InsertedValue(vcpus: map<u32, Vcpu>, list: seq<QmpVcpu>, name: string, n: nat, j: nat)
    requires n <= |list| && LastListed(list, n, j)
    ensures var r, tid := Inserted(vcpus, list, name, n), AsU32(list[j].threadId);
      tid in r && r[tid] == H.Vcpu(AsU32(list[j].cpuIndex), Truncated(name), false)
    decreases n
  {
    if j == n - 1 {
    } else {
      InsertedValue(vcpus, list, name, n - 1, j);
    }
  }

  /** A successful register_vm. */
  function RegisteredMaps(m: Maps, list: seq<QmpVcpu>, name: string, nbVcpus: int): Maps {
    Maps(m.vms[Field(name) := FreshVm(nbVcpus)], Inserted(Without(m.vcpus, name), list, name, |list|), m.registry)
  }

  /** A successful setup_vm_maps. */
  function SetUpMaps(m: Maps, name: string, fd1: u32, fd2: u32): Maps {
    m.(registry := m.registry[UserKey(name, '1') := fd1][UserKey(name, '2') := fd2])
  }

  /** cleanup.c. */
  function CleanedMaps(m: Maps, name: string): Maps {
    Maps(m.vms - {Field(name)}, Without(m.vcpus, name), m.registry - {UserKey(name, '1'), UserKey(name, '2')})
  }

  /** Cleanup compares stored names with the full name, so it finds a VM's entries iff 63 characters suffice. */
  lemma CleanupFindsOwnIff(vcpus: map<u32, Vcpu>, name: string, t: u32)
    requires t in vcpus && vcpus[t].vm == Truncated(name)
    ensures t !in Without(vcpus, name) <==> |name| <= 63
  {
  }

  /** An entry stored under this VM's name, which is cut at 63 characters. */
  ghost predicate StoredUnder(vcpus: map<u32, Vcpu>, name: string, t: u32) {
    t in vcpus && vcpus[t].vm == Truncated(name)
  }

  /** Every entry already stored under this VM's name is about to be written again. */
  ghost predicate NoStale(vcpus: map<u32, Vcpu>, list: seq<QmpVcpu>, name: string) {
    forall t :: StoredUnder(vcpus, name, t) ==> Listed(list, |list|, t)
  }

  /** One entry after registration. */
  lemma RegisteredEntry(m: Maps, list: seq<QmpVcpu>, name: string, nbVcpus: int, t: u32)
    ensures var r := RegisteredMaps(m, list, name, nbVcpus);
      && (Listed(list, |list|, t) ==> StoredUnder(r.vcpus, name, t) && !r.vcpus[t].phantom)
      && (!Listed(list, |list|, t) ==> (t in r.vcpus <==> t in m.vcpus && m.vcpus[t].vm != name))
      && (!Listed(list, |list|, t) && t in r.vcpus ==> r.vcpus[t] == m.vcpus[t])
  {
    InsertedEntries(Without(m.vcpus, name), list, name, |list|, t);
  }

  /**
   Registering again, from any drifted state: the counter is zero, the listed threads are
   stored and unflagged, and other entries stay. The VM's entries are exactly the listed
   threads, so that count = flagged = 0, if and only if its name has at most 63 characters or
   it left no stale entry behind.
   */
  lemma RegistrationResets(m: Maps, list: seq<QmpVcpu>, name: string, nbVcpus: int)
    ensures var r := RegisteredMaps(m, list, name, nbVcpus);
      && r.vms[Field(name)].phantomCount == 0
      && (forall t :: Listed(list, |list|, t) ==> StoredUnder(r.vcpus, name, t) && !r.vcpus[t].phantom)
      && (forall t :: t in m.vcpus && m.vcpus[t].vm != name && !Listed(list, |list|, t) ==>
            t in r.vcpus && r.vcpus[t] == m.vcpus[t])
      && ((forall t :: StoredUnder(r.vcpus, name, t) ==> Listed(list, |list|, t))
          <==> |name| <= 63 || NoStale(m.vcpus, list, name))
  {
    var r := RegisteredMaps(m, list, name, nbVcpus);
    forall t
      ensures Listed(list, |list|, t) ==> StoredUnder(r.vcpus, name, t) && !r.vcpus[t].phantom
      ensures !Listed(list, |list|, t) ==> (t in r.vcpus <==> t in m.vcpus && m.vcpus[t].vm != name)
      ensures !Listed(list, |list|, t) && t in r.vcpus ==> r.vcpus[t] == m.vcpus[t]
    {
      RegisteredEntry(m, list, name, nbVcpus, t);
    }
    if |name| <= 63 {
      assert Truncated(name) == name;
    } else {
      assert Truncated(name) != name;
      assert forall t :: StoredUnder(m.vcpus, name, t) && !Listed(list, |list|, t) ==> StoredUnder(r.vcpus, name, t);
    }
  }

  /** What registration stores, value by value, and that it stores nothing else. */
  lemma RegistrationStores(m: Maps, list: seq<QmpVcpu>, name: string, nbVcpus: int)
    ensures var r := RegisteredMaps(m, list, name, nbVcpus);
      && (forall j: nat :: LastListed(list, |list|, j) ==>
            var tid := AsU32(list[j].threadId);
            tid in r.vcpus && r.vcpus[tid] == H.Vcpu(AsU32(list[j].cpuIndex), Truncated(name), false))
      && Field(name) in r.vms && r.vms[Field(name)] == Vm(0, AsU32(nbVcpus), 0, 0, false, 0)
      && r.vms.Keys == m.vms.Keys + {Field(name)} && r.registry == m.registry
      && (forall key :: key in m.vms && key != Field(name) ==> r.vms[key] == m.vms[key])
  {
    forall j: nat | LastListed(list, |list|, j)
      ensures var r, tid := RegisteredMaps(m, list, name, nbVcpus), AsU32(list[j].threadId);
        tid in r.vcpus && r.vcpus[tid] == H.Vcpu(AsU32(list[j].cpuIndex), Truncated(name), false)
    {
      InsertedValue(Without(m.vcpus, name), list, name, |list|, j);
    }
  }

  /** A VM's record, with two zeroed sample arrays, as its tracker state. */
  function TrackerOf(vm: Vm, capacity: nat): W.Tracker {
    var zeroes := seq(capacity, _ => WeightedAverage.Sample(0, 0));
    W.Tracker(vm.phantomCount, vm.nbVcpus,
              B.Buffers(B.Half(zeroes, vm.index1), B.Half(zeroes, vm.index2), vm.collectingInBuff1, B.Quiet))
  }

  /** The record registration stores is the state every run of the tracker starts from. */
  lemma RecordStartsTracker(m: Maps, list: seq<QmpVcpu>, name: string, nbVcpus: int, capacity: nat)
    ensures TrackerOf(RegisteredMaps(m, list, name, nbVcpus).vms[Field(name)], capacity)
         == W.Registered(AsU32(nbVcpus), capacity)
  {
    assert TrackerOf(FreshVm(nbVcpus), capacity).buffers.one.entries == B.Fresh(capacity).one.entries;
  }

  /** The two userspace keys of a VM differ exactly up to 61 characters. */
  lemma KeysDifferIff(name: string)
    ensures UserKey(name, '1') != UserKey(name, '2') <==> |name| <= 61
  {
    if |name| <= 61 {
      assert UserKey(name, '1')[|name| + 1] == '1' && UserKey(name, '2')[|name| + 1] == '2';
    } else {
      assert (name + ['_', '1'])[..NAME_LEN - 1] == (name + ['_', '2'])[..NAME_LEN - 1];
    }
  }

  /**
   Set-up stores the second array under the second key, and the first under the first exactly
   if the two keys differ (or the arrays do not); it touches nothing else.
   */
  lemma SetUpStores(m: Maps, name: string, fd1: u32, fd2: u32)
    ensures var r, key1, key2 := SetUpMaps(m, name, fd1, fd2), UserKey(name, '1'), UserKey(name, '2');
      && r.vms == m.vms && r.vcpus == m.vcpus
      && r.registry.Keys == m.registry.Keys + {key1, key2}
      && r.registry[key2] == fd2 && (r.registry[key1] == fd1 <==> |name| <= 61 || fd1 == fd2)
      && (forall key :: key in m.registry && key != key1 && key != key2 ==> r.registry[key] == m.registry[key])
  {
    KeysDifferIff(name);
  }

  /** So the kernel programs, which build their own keys, find each array where they look for it. */
  lemma KernelFindsBuffers(m: Maps, name: string, fd1: u32, fd2: u32)
    requires NoNul(name) && |name| <= 61
    ensures var r, key1, key2 := SetUpMaps(m, name, fd1, fd2), KernelKey(Field(name), '1'), KernelKey(Field(name), '2');
      key1 in r.registry && r.registry[key1] == fd1 && key2 in r.registry && r.registry[key2] == fd2
  {
    KeysAgreeIff(name);
    SetUpStores(m, name, fd1, fd2);
  }

  /** The maps of one VM as the switch handlers see them. */
  function HostOf(m: Maps, name: string, cores: map<H.Pcpu, H.Core>): H.Host
    requires Field(name) in m.vms
  {
    var vm := m.vms[Field(name)];
    H.Host(m.vcpus, map[Truncated(name) := H.Vm(vm.phantomCount, vm.nbVcpus, 0, 0, 0)], cores)
  }

  ghost function ListedTids(list: seq<QmpVcpu>, n: nat): set<u32>
    requires n <= |list|
  {
    if n == 0 then {} else ListedTids(list, n - 1) + {AsU32(list[n - 1].threadId)}
  }

  lemma {:induction false} ListedTidsCard(list: seq<QmpVcpu>, n: nat)
    requires n <= |list|
    ensures |ListedTids(list, n)| <= n && forall t :: Listed(list, n, t) ==> t in ListedTids(list, n)
  {
    if n == 0 {
    } else {
      ListedTidsCard(list, n - 1);
      forall t | Listed(list, n, t)
        ensures t in ListedTids(list, n)
      {
        var j :| 0 <= j < n && AsU32(list[j].threadId) == t;
        assert j < n - 1 ==> Listed(list, n - 1, t);
      }
    }
  }

  /** Every flagged entry is about to be removed or written again. */
  ghost predicate FlagsGo(vcpus: map<u32, Vcpu>, list: seq<QmpVcpu>, name: string) {
    forall t :: t in vcpus && vcpus[t].phantom ==> vcpus[t].vm == name || Listed(list, |list|, t)
  }

  /**
   With no handler running, registration from any maps leaves the handlers in an initial
   state, which the counter theorems start from, exactly if no flag of another VM stays.
   */
  lemma RegistrationInitialises(m: Maps, list: seq<QmpVcpu>, name: string, nbVcpus: int,
                                cores: map<H.Pcpu, H.Core>)
    requires forall p :: p in cores ==> cores[p].phase.Quiet?
    requires H.Exclusive(HostOf(RegisteredMaps(m, list, name, nbVcpus), name, cores))
    ensures var h := HostOf(RegisteredMaps(m, list, name, nbVcpus), name, cores);
      H.Init(h) <==> FlagsGo(m.vcpus, list, name)
  {
    var h := HostOf(RegisteredMaps(m, list, name, nbVcpus), name, cores);
    forall t
      ensures t in h.vcpus && h.vcpus[t].phantom
         <==> t in m.vcpus && m.vcpus[t].phantom && m.vcpus[t].vm != name && !Listed(list, |list|, t)
    {
      RegisteredEntry(m, list, name, nbVcpus, t);
    }
  }

  /** And with no more vCPUs of this VM than the list has entries, nor than its ceiling if the list fits that. */
  lemma RegisteredFit(m: Maps, list: seq<QmpVcpu>, name: string, nbVcpus: int, cores: map<H.Pcpu, H.Core>)
    requires |name| <= 63 || NoStale(m.vcpus, list, name)
    ensures var h := HostOf(RegisteredMaps(m, list, name, nbVcpus), name, cores);
      && |H.Registered(h, Truncated(name))| <= |list|
      && (|list| <= nbVcpus < TWO_32 ==> |H.Registered(h, Truncated(name))| <= h.vms[Truncated(name)].nbVcpus)
  {
    var h := HostOf(RegisteredMaps(m, list, name, nbVcpus), name, cores);
    RegistrationResets(m, list, name, nbVcpus);
    assert forall t :: t in H.Registered(h, Truncated(name)) ==> StoredUnder(h.vcpus, name, t);
    ListedTidsCard(list, |list|);
    H.SubsetCard(H.Registered(h, Truncated(name)), ListedTids(list, |list|));
  }

  /**
   From registration on, in every interleaving of the handlers: the counter stays in
   0..nb_vcpus and, until a retry loop is exhausted, is flagged less pending increments plus
   pending decrements.
   */
  lemma RegisteredRunsCount(m: Maps, list: seq<QmpVcpu>, name: string, nbVcpus: int,
                            cores: map<H.Pcpu, H.Core>, acts: seq<H.Action>)
    requires forall p :: p in cores ==> cores[p].phase.Quiet?
    requires H.Exclusive(HostOf(RegisteredMaps(m, list, name, nbVcpus), name, cores))
    requires FlagsGo(m.vcpus, list, name) && (|name| <= 63 || NoStale(m.vcpus, list, name))
    requires |list| <= nbVcpus < TWO_32
    requires H.Legal(HostOf(RegisteredMaps(m, list, name, nbVcpus), name, cores), acts)
    ensures var g, v := H.Exec(HostOf(RegisteredMaps(m, list, name, nbVcpus), name, cores), acts), Truncated(name);
      && v in g.vms && 0 <= g.vms[v].count <= nbVcpus
      && (g.vms[v].exhausted == 0 ==>
            g.vms[v].count == |H.Flagged(g, v)| - |H.PendingIncs(g, v)| + |H.PendingDecs(g, v)|)
  {
    var h, v := HostOf(RegisteredMaps(m, list, name, nbVcpus), name, cores), Truncated(name);
    RegistrationInitialises(m, list, name, nbVcpus, cores);
    RegisteredFit(m, list, name, nbVcpus, cores);
    H.NoDriftWithoutExhaustion(h, acts, v);
    H.CounterInEveryInterleaving(h, acts, v);
  }

  /** Nothing of this VM is in the maps, and none of its threads is. */
  ghost predicate Absent(m: Maps, list: seq<QmpVcpu>, name: string) {
    && Field(name) !in m.vms
    && UserKey(name, '1') !in m.registry && UserKey(name, '2') !in m.registry
    && (forall t :: t in m.vcpus ==> m.vcpus[t].vm != name && m.vcpus[t].vm != Truncated(name))
    && (forall j :: 0 <= j < |list| ==> AsU32(list[j].threadId) !in m.vcpus)
  }

  lemma CleanedVcpus(m: Maps, list: seq<QmpVcpu>, name: string, t: u32)
    requires Absent(m, list, name)
    ensures var r := Without(Inserted(Without(m.vcpus, name), list, name, |list|), name);
      && (t in m.vcpus ==> t in r && r[t] == m.vcpus[t])
      && (t !in m.vcpus ==> (t in r <==> Listed(list, |list|, t) && |name| > 63))
  {
    InsertedEntries(Without(m.vcpus, name), list, name, |list|, t);
  }

  /**
   Registering a new VM and cleaning it up restores all three maps, entries and not only
   keys, exactly when its name has at most 63 characters (or it listed no vCPU).
   */
  lemma CleanupUndoesRegistration(m: Maps, list: seq<QmpVcpu>, name: string, nbVcpus: int, fd1: u32, fd2: u32)
    requires Absent(m, list, name)
    ensures CleanedMaps(SetUpMaps(RegisteredMaps(m, list, name, nbVcpus), name, fd1, fd2), name) == m
      <==> |name| <= 63 || |list| == 0
  {
    var r := CleanedMaps(SetUpMaps(RegisteredMaps(m, list, name, nbVcpus), name, fd1, fd2), name);
    assert r.vms == m.vms;
    assert r.registry == m.registry;
    forall t
      ensures t in m.vcpus ==> t in r.vcpus && r.vcpus[t] == m.vcpus[t]
      ensures t !in m.vcpus ==> (t in r.vcpus <==> Listed(list, |list|, t) && |name| > 63)
    {
      CleanedVcpus(m, list, name, t);
    }
    if |name| <= 63 || |list| == 0 {
      assert r.vcpus == m.vcpus;
    } else {
      assert AsU32(list[0].threadId) in r.vcpus;
    }
  }

  // ---------------------------------------------------------------- the source's in-place form

  /** Which pinned maps bpf_obj_get opens. */
  datatype Opened = Opened(registry: bool, vms: bool, vcpus: bool)

  /** The pinned maps. */
  class PinnedMaps {
    var vms: map<string, Vm>
    var vcpus: map<u32, Vcpu>
    var registry: map<string, u32>

    ghost function Model(): Maps
      reads this
    {
      Maps(vms, vcpus, registry)
    }

    /** First loop of cleanup_stale_vcpus: collect this VM's keys in a doubling buffer. */
    method CollectKeys(name: string, keys: seq<u32>, canAlloc: nat -> bool)
      returns (completed: bool, toDelete: array<u32>, count: nat)
      ensures fresh(toDelete)
      ensures completed ==> count <= toDelete.Length && toDelete[..count] == Matching(vcpus, keys, name)
      ensures (forall n :: canAlloc(n)) ==> completed
    {
      completed, count, toDelete := false, 0, new u32[FIRST_CAPACITY](_ => 0);
      if !canAlloc(FIRST_CAPACITY) {
        return;
      }
      for k := 0 to |keys|
        invariant count <= toDelete.Length && FIRST_CAPACITY <= toDelete.Length && fresh(toDelete)
        invariant toDelete[..count] == Matching(vcpus, keys[..k], name)
      {
        var key := keys[k];
        assert keys[..k + 1][..k] == keys[..k];
        if key in vcpus && vcpus[key].vm == name {
          if count >= toDelete.Length {
            if !canAlloc(2 * toDelete.Length) {
              return;
            }
            toDelete := Grow(toDelete);
          }
          toDelete[count] := key;
          count := count + 1;
        }
      }
      assert keys[..|keys|] == keys;
      completed := true;
    }

    /**
     cleanup_stale_vcpus. `keys` is the order in which bpf_map_get_next_key yields the map's
     keys, `canAlloc` says which buffer sizes malloc and realloc grant; on a refusal nothing
     is deleted.
     */
    method CleanupStaleVcpus(name: string, keys: seq<u32>, canAlloc: nat -> bool) returns (completed: bool)
      requires forall t :: t in vcpus <==> t in keys
      modifies this`vcpus
      ensures vcpus == if completed then Without(old(vcpus), name) else old(vcpus)
      ensures (forall n :: canAlloc(n)) ==> completed
    {
      var toDelete, count;
      completed, toDelete, count := CollectKeys(name, keys, canAlloc);
      if !completed {
        return;
      }
      ghost var all := Matching(vcpus, keys, name);
      for i := 0 to count
        invariant toDelete[..count] == all
        invariant vcpus == old(vcpus) - (set t | t in all[..i])
      {
        vcpus := vcpus - {toDelete[i]};
        assert all[..i + 1] == all[..i] + [all[i]];
      }
      assert all[..count] == all;
      DeleteMatching(old(vcpus), keys, name);
    }

    /**
     register_vm: reset the VM's record, then write its vCPUs until one is refused. `isOpen`
     says that the VM's record was allocated and both pinned maps opened, `canEntry` which
     vCPU records are allocated.
     */
    method RegisterVm(list: seq<QmpVcpu>, name: string, nbVcpus: int, keys: seq<u32>, canAlloc: nat -> bool,
                      isOpen: bool, canEntry: nat -> bool)
      returns (ret: int, cleaned: bool, done: nat)
      requires forall t :: t in vcpus <==> t in keys
      modifies this
      ensures isOpen && (forall n :: canAlloc(n)) ==> cleaned
      ensures !isOpen ==> ret == -1 && done == 0 && !cleaned && Model() == old(Model())
      ensures done <= |list| && registry == old(registry)
      ensures vcpus == Inserted(if cleaned then Without(old(vcpus), name) else old(vcpus), list, name, done)
      ensures ret == 0 <==> isOpen && !Refused(old(vms), Field(name), MAX_VMS) && done == |list|
      ensures if !isOpen || Refused(old(vms), Field(name), MAX_VMS) then vms == old(vms) && done == 0 && ret == -1
              else vms == old(vms)[Field(name) := FreshVm(nbVcpus)]
      ensures ret == 0 && cleaned ==> Model() == RegisteredMaps(old(Model()), list, name, nbVcpus)
      ensures ret != 0 && isOpen && !Refused(old(vms), Field(name), MAX_VMS) ==>
        done < |list| && (!canEntry(done) || Refused(vcpus, AsU32(list[done].threadId), MAX_VCPUS))
    {
      done := 0;
      if !isOpen {
        return -1, false, done;
      }
      cleaned := CleanupStaleVcpus(name, keys, canAlloc);
      if Refused(vms, Field(name), MAX_VMS) {
        return -1, cleaned, done;
      }
      vms := vms[Field(name) := FreshVm(nbVcpus)];
      ghost var base := vcpus;
      while done < |list|
        invariant done <= |list| && vcpus == Inserted(base, list, name, done)
        invariant registry == old(registry) && vms == old(vms)[Field(name) := FreshVm(nbVcpus)]
      {
        if !canEntry(done) {
          return -1, cleaned, done;
        }
        var key := AsU32(list[done].threadId);
        if Refused(vcpus, key, MAX_VCPUS) {
          return -1, cleaned, done;
        }
        vcpus := vcpus[key := Entry(list[done], name)];
        done := done + 1;
      }
      ret := 0;
    }

    /**
     setup_vm_maps: the two registry entries, the second only if the first was accepted.
     `isPinned` says that the registry opened and both buffers were created and pinned.
     */
    method SetupVmMaps(name: string, fd1: u32, fd2: u32, isPinned: bool) returns (ret: int)
      modifies this`registry
      ensures ret == 0 ==> Model() == SetUpMaps(old(Model()), name, fd1, fd2)
      ensures !isPinned ==> registry == old(registry)
      ensures ret == 0 <==>
        (&& isPinned
         && !Refused(old(registry), UserKey(name, '1'), MAX_REGISTRY)
         && !Refused(old(registry)[UserKey(name, '1') := fd1], UserKey(name, '2'), MAX_REGISTRY))
      ensures ret != 0 ==> registry == old(registry) || registry == old(registry)[UserKey(name, '1') := fd1]
    {
      if !isPinned {
        return -1;
      }
      if Refused(registry, UserKey(name, '1'), MAX_REGISTRY) {
        return -1;
      }
      registry := registry[UserKey(name, '1') := fd1];
      if Refused(registry, UserKey(name, '2'), MAX_REGISTRY) {
        return -1;
      }
      registry := registry[UserKey(name, '2') := fd2];
      return 0;
    }

    /** cleanup.c's deletions; a map that does not open is skipped and the others are cleaned all the same. */
    method CleanupVm(name: string, keys: seq<u32>, canAlloc: nat -> bool, open: Opened) returns (completed: bool)
      requires forall t :: t in vcpus <==> t in keys
      modifies this
      ensures completed ==> open.vcpus
      ensures open.vcpus && (forall n :: canAlloc(n)) ==> completed
      ensures var cleaned := CleanedMaps(old(Model()), name);
        && vms == (if open.vms then cleaned.vms else old(vms))
        && registry == (if open.registry then cleaned.registry else old(registry))
        && vcpus == (if completed then cleaned.vcpus else old(vcpus))
    {
      if open.registry {
        registry := registry - {UserKey(name, '1')};
        registry := registry - {UserKey(name, '2')};
        assert registry == old(registry) - {UserKey(name, '1'), UserKey(name, '2')};
      }
      if open.vms {
        vms := vms - {Field(name)};
      }
      completed := false;
      if open.vcpus {
        completed := CleanupStaleVcpus(name, keys, canAlloc);
      }
    }
  }

  /** realloc to twice the size: the old contents stay in front. */
  method Grow(a: array<u32>) returns (b: array<u32>)
    requires a.Length > 0
    ensures fresh(b) && b.Length == 2 * a.Length && b[..a.Length] == a[..]
  {
    b := new u32[2 * a.Length](_ => 0);
    for i := 0 to a.Length
      invariant b[..i] == a[..i]
    {
      b[i] := a[i];
    }
  }
}

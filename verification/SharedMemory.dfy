/**
 One backend's memory as bytes, and the operations of both drivers on it: the host's message
 write and slot read (host_ivshmem.c), the guest's slot write and mmap (guest_ivshmem.c).
 The abstraction is a record of header, latest message, history and run-state slots.
 */
module SharedMemory {
  import opened MachineInts
  import opened ShmemLayout

  type byte = x: int | 0 <= x < 256

  // ---------------------------------------------------------------- little-endian words

  function Pow256(n: nat): (r: nat)
    ensures r >= 1
  {
    if n == 0 then 1 else 256 * Pow256(n - 1)
  }

  function Bytes(v: nat, n: nat): (r: seq<byte>)
    ensures |r| == n
  {
    if n == 0 then [] else [v % 256] + Bytes(v / 256, n - 1)
  }

  function Word(b: seq<byte>): nat {
    if |b| == 0 then 0 else b[0] + 256 * Word(b[1..])
  }

  lemma {:induction false} WordBound(b: seq<byte>)
    ensures Word(b) < Pow256(|b|)
  {
    if |b| == 0 {
    } else {
      WordBound(b[1..]);
    }
  }

  lemma Pow256Values()
    ensures Pow256(4) == TWO_32 && Pow256(8) == TWO_64
  {
    assert Pow256(2) == 0x1_0000;
    assert Pow256(4) == TWO_32;
    assert Pow256(6) == 0x1_0000_0000_0000;
  }

  lemma {:induction false} WordOfBytes(v: nat, n: nat)
    requires v < Pow256(n)
    ensures Word(Bytes(v, n)) == v
  {
    if n == 0 {
    } else {
      WordOfBytes(v / 256, n - 1);
      assert Bytes(v, n)[1..] == Bytes(v / 256, n - 1);
    }
  }

  /** A store of `width` bytes. */
  function Store(mem: seq<byte>, offset: nat, v: nat, width: nat): (r: seq<byte>)
    requires offset + width <= |mem|
    ensures |r| == |mem|
  {
    mem[..offset] + Bytes(v, width) + mem[offset + width..]
  }

  function Load(mem: seq<byte>, offset: nat, width: nat): nat
    requires offset + width <= |mem|
  {
    Word(mem[offset..offset + width])
  }

  lemma LoadStored(mem: seq<byte>, offset: nat, v: nat, width: nat)
    requires offset + width <= |mem| && v < Pow256(width)
    ensures Load(Store(mem, offset, v, width), offset, width) == v
  {
    assert Store(mem, offset, v, width)[offset..offset + width] == Bytes(v, width);
    WordOfBytes(v, width);
  }

  lemma LoadElsewhere(mem: seq<byte>, offset: nat, v: nat, width: nat, at: nat, size: nat)
    requires offset + width <= |mem| && at + size <= |mem|
    requires at + size <= offset || offset + width <= at
    ensures Load(Store(mem, offset, v, width), at, size) == Load(mem, at, size)
  {
    assert Store(mem, offset, v, width)[at..at + size] == mem[at..at + size];
  }

  /** A u64 in memory. */
  function Get(mem: seq<byte>, offset: nat): u64
    requires offset + 8 <= |mem|
  {
    WordBound(mem[offset..offset + 8]);
    Pow256Values();
    Load(mem, offset, 8)
  }

  function Put(mem: seq<byte>, offset: nat, v: u64): (r: seq<byte>)
    requires offset + 8 <= |mem|
    ensures |r| == |mem|
  {
    Store(mem, offset, v, 8)
  }

  lemma GetPut(mem: seq<byte>, offset: nat, v: u64, at: nat)
    requires offset + 8 <= |mem| && at + 8 <= |mem|
    requires at == offset || at + 8 <= offset || offset + 8 <= at
    ensures Get(Put(mem, offset, v), at) == if at == offset then v else Get(mem, at)
  {
    Pow256Values();
    if at == offset {
      LoadStored(mem, offset, v, 8);
    } else {
      LoadElsewhere(mem, offset, v, 8, at, 8);
    }
  }

  // ---------------------------------------------------------------- the header in memory

  function Get32(mem: seq<byte>, offset: nat): u32
    requires offset + 4 <= |mem|
  {
    WordBound(mem[offset..offset + 4]);
    Pow256Values();
    Load(mem, offset, 4)
  }

  /** struct ivshmem_header at offset 0, with the padding after latest_slot. */
  function HeaderAt(mem: seq<byte>): Header
    requires |mem| >= 48
  {
    Header(Get32(mem, 0), Get32(mem, 4), Get32(mem, 8), Get(mem, 16), Get(mem, 24), Get(mem, 32), Get(mem, 40))
  }

  function HeaderBytes(h: Header): (r: seq<byte>)
    ensures |r| == 48
  {
    Bytes(h.magic, 4) + Bytes(h.version, 4) + Bytes(h.latestSlot, 4) + Bytes(0, 4)
    + Bytes(h.h2gOffset, 8) + Bytes(h.h2gSize, 8) + Bytes(h.g2hOffset, 8) + Bytes(h.g2hSize, 8)
  }

  /** Where each field of the header starts and ends. */
  lemma HeaderSlices(h: Header, rest: seq<byte>)
    ensures var mem := HeaderBytes(h) + rest;
      && mem[0..4] == Bytes(h.magic, 4) && mem[4..8] == Bytes(h.version, 4) && mem[8..12] == Bytes(h.latestSlot, 4)
      && mem[16..24] == Bytes(h.h2gOffset, 8) && mem[24..32] == Bytes(h.h2gSize, 8)
      && mem[32..40] == Bytes(h.g2hOffset, 8) && mem[40..48] == Bytes(h.g2hSize, 8)
  {
  }

  /** Reading the header back gives what was written. */
  lemma HeaderRoundTrip(h: Header, rest: seq<byte>)
    ensures HeaderAt(HeaderBytes(h) + rest) == h
  {
    HeaderSlices(h, rest);
    Pow256Values();
    WordOfBytes(h.magic, 4);
    WordOfBytes(h.version, 4);
    WordOfBytes(h.latestSlot, 4);
    WordOfBytes(h.h2gOffset, 8);
    WordOfBytes(h.h2gSize, 8);
    WordOfBytes(h.g2hOffset, 8);
    WordOfBytes(h.g2hSize, 8);
  }

  // ---------------------------------------------------------------- operations and their abstraction

  /** What the two sides share, without bytes and offsets. Slot k + 1 of the H2G page is history[k]. */
  datatype View = View(header: Header, latest: u64, history: seq<u64>, runStates: seq<u64>)

  function H2gSlot(index: nat): nat {
    H2G_OFFSET + index * MSG_SIZE
  }

  function G2hSlot(index: nat): nat {
    G2H_OFFSET + index * MSG_SIZE
  }

  /** The first words of n consecutive message slots. */
  function Slots(mem: seq<byte>, base: nat, n: nat): (r: seq<u64>)
    requires base + n * MSG_SIZE <= |mem|
    ensures |r| == n && forall i :: 0 <= i < n ==> r[i] == Get(mem, base + i * MSG_SIZE)
  {
    if n == 0 then [] else Slots(mem, base, n - 1) + [Get(mem, base + (n - 1) * MSG_SIZE)]
  }

  function ViewOf(mem: seq<byte>): View
    requires |mem| >= G2hSlot(NR_MSGS)
  {
    View(HeaderAt(mem), Get(mem, H2gSlot(0)), Slots(mem, H2gSlot(1), NR_MSGS - 1), Slots(mem, G2hSlot(0), NR_MSGS))
  }

  /** A store in slot `index` of a run of slots changes that slot, a store elsewhere none. */
  lemma PutSlots(mem: seq<byte>, base: nat, n: nat, offset: nat, msg: u64)
    requires base + n * MSG_SIZE <= |mem| && offset + 8 <= |mem|
    requires offset + 8 <= base || base + n * MSG_SIZE <= offset
    ensures Slots(Put(mem, offset, msg), base, n) == Slots(mem, base, n)
  {
    var a, b := Slots(Put(mem, offset, msg), base, n), Slots(mem, base, n);
    forall i | 0 <= i < n
      ensures a[i] == b[i]
    {
      GetPut(mem, offset, msg, base + i * MSG_SIZE);
    }
  }

  lemma PutInSlots(mem: seq<byte>, base: nat, n: nat, index: nat, msg: u64)
    requires base + n * MSG_SIZE <= |mem| && index < n
    ensures base + index * MSG_SIZE + 8 <= |mem|
    ensures Slots(Put(mem, base + index * MSG_SIZE, msg), base, n) == Slots(mem, base, n)[index := msg]
  {
    var a, b := Slots(Put(mem, base + index * MSG_SIZE, msg), base, n), Slots(mem, base, n);
    forall i | 0 <= i < n
      ensures a[i] == b[index := msg][i]
    {
      GetPut(mem, base + index * MSG_SIZE, msg, base + i * MSG_SIZE);
    }
  }

  datatype Op =
    | HostWrite(index: u32, msg: u64)
    | HostRead(index: u32)
    | GuestWrite(index: u32, msg: u64)
    | Mmap(pgoff: u64, pages: u64)

  /** Room for every slot, and a header that points the guest at the host's G2H region. */
  ghost predicate Ready(mem: seq<byte>) {
    |mem| >= G2hSlot(NR_MSGS) && HeaderAt(mem).g2hOffset == G2H_OFFSET && HeaderAt(mem).h2gSize == PAGE_SIZE
  }

  /** The effect on bytes; refused operations have none. The guest goes through the header's offset. */
  ghost function Apply(mem: seq<byte>, op: Op): seq<byte>
    requires Ready(mem)
  {
    match op
    case HostWrite(index, msg) =>
      if index == LATEST_SLOT || index >= NR_MSGS then mem
      else Put(Put(mem, H2gSlot(index), msg), H2gSlot(LATEST_SLOT), msg)
    case GuestWrite(index, msg) =>
      if index >= NR_MSGS then mem else Put(mem, HeaderAt(mem).g2hOffset + index * MSG_SIZE, msg)
    case HostRead(_) => mem
    case Mmap(_, _) => mem
  }

  /** The effect on the record. */
  function AbstractApply(v: View, op: Op): View
    requires |v.history| == NR_MSGS - 1 && |v.runStates| == NR_MSGS
  {
    match op
    case HostWrite(index, msg) =>
      if index == LATEST_SLOT || index >= NR_MSGS then v
      else v.(latest := msg, history := v.history[index - 1 := msg])
    case GuestWrite(index, msg) =>
      if index >= NR_MSGS then v else v.(runStates := v.runStates[index := msg])
    case HostRead(_) => v
    case Mmap(_, _) => v
  }

  lemma PutKeepsHeader(mem: seq<byte>, offset: nat, msg: u64)
    requires 48 <= offset && offset + 8 <= |mem|
    ensures HeaderAt(Put(mem, offset, msg)) == HeaderAt(mem)
  {
    LoadElsewhere(mem, offset, msg, 8, 0, 4);
    LoadElsewhere(mem, offset, msg, 8, 4, 4);
    LoadElsewhere(mem, offset, msg, 8, 8, 4);
    GetPut(mem, offset, msg, 16);
    GetPut(mem, offset, msg, 24);
    GetPut(mem, offset, msg, 32);
    GetPut(mem, offset, msg, 40);
  }

  /** Storing in one slot of the H2G page. */
  lemma PutH2g(mem: seq<byte>, index: nat, msg: u64)
    requires |mem| >= G2hSlot(NR_MSGS) && index < NR_MSGS
    ensures var v, w := ViewOf(mem), ViewOf(Put(mem, H2gSlot(index), msg));
      w == if index == 0 then v.(latest := msg) else v.(history := v.history[index - 1 := msg])
  {
    var at := H2gSlot(index);
    PutKeepsHeader(mem, at, msg);
    GetPut(mem, at, msg, H2gSlot(0));
    if index == 0 {
      PutSlots(mem, H2gSlot(1), NR_MSGS - 1, at, msg);
    } else {
      assert at == H2gSlot(1) + (index - 1) * MSG_SIZE;
      PutInSlots(mem, H2gSlot(1), NR_MSGS - 1, index - 1, msg);
    }
    PutSlots(mem, G2hSlot(0), NR_MSGS, at, msg);
  }

  /** Storing in one run-state slot. */
  lemma PutG2h(mem: seq<byte>, index: nat, msg: u64)
    requires |mem| >= G2hSlot(NR_MSGS) && index < NR_MSGS
    ensures var v, w := ViewOf(mem), ViewOf(Put(mem, G2hSlot(index), msg));
      w == v.(runStates := v.runStates[index := msg])
  {
    PutKeepsHeader(mem, G2hSlot(index), msg);
    GetPut(mem, G2hSlot(index), msg, H2gSlot(0));
    PutSlots(mem, H2gSlot(1), NR_MSGS - 1, G2hSlot(index), msg);
    PutInSlots(mem, G2hSlot(0), NR_MSGS, index, msg);
  }

  lemma HostWriteRefines(mem: seq<byte>, index: u32, msg: u64)
    requires |mem| >= G2hSlot(NR_MSGS) && 0 < index < NR_MSGS
    ensures var v, mem' := ViewOf(mem), Put(Put(mem, H2gSlot(index), msg), H2gSlot(LATEST_SLOT), msg);
      ViewOf(mem') == v.(latest := msg, history := v.history[index - 1 := msg])
  {
    PutH2g(mem, index, msg);
    PutH2g(Put(mem, H2gSlot(index), msg), 0, msg);
  }

  /** Each operation changes the bytes as it changes the record. */
  lemma OpRefines(mem: seq<byte>, op: Op)
    requires Ready(mem)
    ensures Ready(Apply(mem, op)) && |Apply(mem, op)| == |mem|
    ensures ViewOf(Apply(mem, op)) == AbstractApply(ViewOf(mem), op)
  {
    match op
    case HostWrite(index, msg) => HostOpRefines(mem, index, msg);
    case GuestWrite(index, msg) => GuestOpRefines(mem, index, msg);
    case HostRead(_) =>
    case Mmap(_, _) =>
  }

  lemma HostOpRefines(mem: seq<byte>, index: u32, msg: u64)
    requires Ready(mem)
    ensures var op := HostWrite(index, msg);
      && Ready(Apply(mem, op)) && |Apply(mem, op)| == |mem|
      && ViewOf(Apply(mem, op)) == AbstractApply(ViewOf(mem), op)
  {
    if index != LATEST_SLOT && index < NR_MSGS {
      HostWriteRefines(mem, index, msg);
    }
  }

  lemma GuestOpRefines(mem: seq<byte>, index: u32, msg: u64)
    requires Ready(mem)
    ensures var op := GuestWrite(index, msg);
      && Ready(Apply(mem, op)) && |Apply(mem, op)| == |mem|
      && ViewOf(Apply(mem, op)) == AbstractApply(ViewOf(mem), op)
  {
    if index < NR_MSGS {
      PutG2h(mem, index, msg);
    }
  }

  function ZeroBytes(n: nat): (r: seq<byte>)
    ensures |r| == n && forall i :: 0 <= i < n ==> r[i] == 0
  {
    seq(n, _ => 0)
  }

  /** Zeroed memory with the header written, as vmalloc_user and the header fill leave it. */
  function Formatted(h: Header, size: nat): (mem: seq<byte>)
    requires size >= 48
    ensures |mem| == size && forall i :: 48 <= i < size ==> mem[i] == 0
  {
    HeaderBytes(h) + ZeroBytes(size - 48)
  }

  lemma FormattedReady(h: Header, size: nat)
    requires size >= 48
    ensures HeaderAt(Formatted(h, size)) == h
  {
    HeaderRoundTrip(h, ZeroBytes(size - 48));
  }

  function Created(nbCpu: u32): seq<byte> {
    Formatted(HostHeader(BackendSize(nbCpu)), BackendSize(nbCpu))
  }

  lemma CreatedReady(nbCpu: u32)
    requires nbCpu >= 1
    ensures Ready(Created(nbCpu)) && |Created(nbCpu)| == BackendSize(nbCpu)
    ensures HeaderAt(Created(nbCpu)) == HostHeader(BackendSize(nbCpu))
  {
    SlotsFitIffVcpus(nbCpu);
    FormattedReady(HostHeader(BackendSize(nbCpu)), BackendSize(nbCpu));
  }

  lemma {:induction false} WordOfZeros(b: seq<byte>)
    requires forall i :: 0 <= i < |b| ==> b[i] == 0
    ensures Word(b) == 0
  {
    if |b| == 0 {
    } else {
      WordOfZeros(b[1..]);
    }
  }

  function Zeros(n: nat): (r: seq<u64>)
    ensures |r| == n && forall i :: 0 <= i < n ==> r[i] == 0
  {
    seq(n, _ => 0)
  }

  /** Only a header. */
  function Blank(h: Header): View {
    View(h, 0, Zeros(NR_MSGS - 1), Zeros(NR_MSGS))
  }

  lemma ZeroWord(mem: seq<byte>, at: nat)
    requires at + 8 <= |mem| && forall i :: at <= i < |mem| ==> mem[i] == 0
    ensures Get(mem, at) == 0
  {
    WordOfZeros(mem[at..at + 8]);
  }

  lemma ZeroSlots(mem: seq<byte>, base: nat, n: nat)
    requires base + n * MSG_SIZE <= |mem| && forall i :: base <= i < |mem| ==> mem[i] == 0
    ensures Slots(mem, base, n) == Zeros(n)
  {
    var a := Slots(mem, base, n);
    forall i | 0 <= i < n
      ensures a[i] == 0
    {
      ZeroWord(mem, base + i * MSG_SIZE);
    }
  }

  /** A new backend holds its header and nothing else. */
  lemma CreatedIsBlank(nbCpu: u32)
    requires nbCpu >= 1
    ensures |Created(nbCpu)| >= G2hSlot(NR_MSGS)
    ensures ViewOf(Created(nbCpu)) == Blank(HostHeader(BackendSize(nbCpu)))
  {
    CreatedReady(nbCpu);
    var mem := Created(nbCpu);
    ZeroWord(mem, H2gSlot(0));
    ZeroSlots(mem, H2gSlot(1), NR_MSGS - 1);
    ZeroSlots(mem, G2hSlot(0), NR_MSGS);
  }

  ghost function Exec(nbCpu: u32, ops: seq<Op>): (mem: seq<byte>)
    requires nbCpu >= 1
    ensures Ready(mem) && |mem| == BackendSize(nbCpu)
  {
    CreatedReady(nbCpu);
    if |ops| == 0 then Created(nbCpu)
    else OpRefines(Exec(nbCpu, ops[..|ops| - 1]), ops[|ops| - 1]); Apply(Exec(nbCpu, ops[..|ops| - 1]), ops[|ops| - 1])
  }

  ghost function AbstractExec(nbCpu: u32, ops: seq<Op>): (v: View)
    ensures |v.history| == NR_MSGS - 1 && |v.runStates| == NR_MSGS
  {
    if |ops| == 0 then Blank(HostHeader(BackendSize(nbCpu)))
    else AbstractApply(AbstractExec(nbCpu, ops[..|ops| - 1]), ops[|ops| - 1])
  }

  /** Every sequence of operations of either side acts on the bytes as on the record. */
  lemma {:induction false} MemoryRefinesView(nbCpu: u32, ops: seq<Op>)
    requires nbCpu >= 1
    ensures ViewOf(Exec(nbCpu, ops)) == AbstractExec(nbCpu, ops)
  {
    if |ops| == 0 {
      CreatedIsBlank(nbCpu);
    } else {
      MemoryRefinesView(nbCpu, ops[..|ops| - 1]);
      OpRefines(Exec(nbCpu, ops[..|ops| - 1]), ops[|ops| - 1]);
    }
  }

  /** The guest's last message in slot i, 0 if it never wrote one. */
  ghost function LastGuestWrite(ops: seq<Op>, i: u32): u64 {
    if |ops| == 0 then 0 else
    var op := ops[|ops| - 1];
    if op.GuestWrite? && op.index == i then op.msg else LastGuestWrite(ops[..|ops| - 1], i)
  }

  lemma {:induction false} RunStatesAreLastWrites(nbCpu: u32, ops: seq<Op>, i: u32)
    requires i < NR_MSGS
    ensures AbstractExec(nbCpu, ops).runStates[i] == LastGuestWrite(ops, i)
    ensures AbstractExec(nbCpu, ops).header == HostHeader(BackendSize(nbCpu))
  {
    if |ops| == 0 {
    } else {
      RunStatesAreLastWrites(nbCpu, ops[..|ops| - 1], i);
    }
  }

  /** What host_ivshmem_g2h_read loads. */
  ghost function ReadSlot(mem: seq<byte>, i: u32): u64
    requires Ready(mem) && i < NR_MSGS
  {
    Get(mem, G2hSlot(i))
  }

  /**
   After any operations of either side, the host reads from slot i the guest's last write to
   it, the header is still the host's, and an accepted mmap ends below the G2H region.
   */
  lemma HostReadsLastGuestWrite(nbCpu: u32, ops: seq<Op>, i: u32, pgoff: u64, pages: u64)
    requires nbCpu >= 1 && i < NR_MSGS
    ensures ReadSlot(Exec(nbCpu, ops), i) == LastGuestWrite(ops, i)
    ensures ProbeAccepts(HeaderAt(Exec(nbCpu, ops)), |Exec(nbCpu, ops)|)
    ensures MmapAccepts(HeaderAt(Exec(nbCpu, ops)), pgoff, pages) ==>
      AsU64(pgoff * PAGE_SIZE) + AsU64(pages * PAGE_SIZE) <= HeaderAt(Exec(nbCpu, ops)).g2hOffset
  {
    MemoryRefinesView(nbCpu, ops);
    RunStatesAreLastWrites(nbCpu, ops, i);
    assert ViewOf(Exec(nbCpu, ops)).runStates[i] == ReadSlot(Exec(nbCpu, ops), i);
    LayoutAgrees(nbCpu);
    if MmapAccepts(HeaderAt(Exec(nbCpu, ops)), pgoff, pages) {
      MmapStaysBelowG2h(HeaderAt(Exec(nbCpu, ops)), pgoff, pages);
    }
  }

  // ---------------------------------------------------------------- the source's in-place form

  const ENODEV: int := -19
  const EINVAL: int := -22
  const EIO: int := -5

  /** A message pointer: null, or the word it points to. */
  datatype MsgPtr = Null | Msg(word: u64)

  /** An 8-byte store, byte by byte. */
  method WriteWord(mem: array<byte>, offset: nat, v: u64)
    requires offset + 8 <= mem.Length
    modifies mem
    ensures mem[..] == Put(old(mem[..]), offset, v)
  {
    ghost var before, bytes := mem[..], Bytes(v, 8);
    var rest: nat := v;
    for i := 0 to 8
      invariant Bytes(rest, 8 - i) == bytes[i..]
      invariant mem[..] == before[..offset] + bytes[..i] + before[offset + i..]
    {
      assert bytes[i] == rest % 256 && Bytes(rest / 256, 7 - i) == bytes[i..][1..];
      mem[offset + i] := rest % 256;
      rest := rest / 256;
    }
  }

  /** struct host_ivshmem_backend. */
  class Backend {
    const mem: array<byte>

    /** host_ivshmem_create_static_backend's memory and header fill. */
    constructor (nbCpu: u32)
      ensures fresh(mem) && mem[..] == Created(nbCpu)
    {
      var size := BackendSize(nbCpu);
      mem := new byte[size](_ => 0);
      new;
      WriteHeader(mem, HeaderBytes(HostHeader(size)));
    }
  }

  /** Copy the header to the start of zeroed memory. */
  method WriteHeader(mem: array<byte>, header: seq<byte>)
    requires |header| <= mem.Length && forall k :: 0 <= k < mem.Length ==> mem[k] == 0
    modifies mem
    ensures mem[..] == header + ZeroBytes(mem.Length - |header|)
  {
    for i := 0 to |header|
      invariant forall k :: 0 <= k < mem.Length ==> mem[k] == if k < i then header[k] else 0
    {
      mem[i] := header[i];
    }
  }

  /** host_ivshmem_h2g_write_msg: history slot first, then the mirror in slot 0. */
  method H2gWriteMsg(backend: Backend?, index: u32, msg: MsgPtr) returns (ret: int)
    requires backend != null ==> Ready(backend.mem[..])
    modifies if backend == null then {} else {backend.mem}
    ensures ret == if backend == null then ENODEV
                   else if msg.Null? || index == LATEST_SLOT || index >= NR_MSGS then EINVAL else 0
    ensures backend != null ==>
      backend.mem[..] == if msg.Null? then old(backend.mem[..])
                         else Apply(old(backend.mem[..]), HostWrite(index, msg.word))
  {
    if backend == null {
      return ENODEV;
    }
    if msg.Null? {
      return EINVAL;
    }
    if index == LATEST_SLOT || index >= NR_MSGS {
      return EINVAL;
    }
    WriteWord(backend.mem, H2G_OFFSET + index * MSG_SIZE, msg.word);
    WriteWord(backend.mem, H2G_OFFSET + LATEST_SLOT * MSG_SIZE, msg.word);
    return 0;
  }

  /** An 8-byte load. */
  method ReadWord(mem: array<byte>, offset: nat) returns (v: u64)
    requires offset + 8 <= mem.Length
    ensures v == Get(mem[..], offset)
  {
    var sum: nat := 0;
    ghost var bytes := mem[..][offset..offset + 8];
    for i := 8 downto 0
      invariant sum == Word(bytes[i..])
    {
      assert bytes[i..][1..] == bytes[i + 1..];
      sum := mem[offset + i] + 256 * sum;
    }
    assert bytes[0..] == bytes;
    WordBound(bytes);
    Pow256Values();
    v := sum;
  }

  /** host_ivshmem_g2h_read with the caller's zeroed message: refused reads leave it 0. */
  method G2hRead(backend: Backend?, index: u32, hasBuffer: bool) returns (ret: int, word: u64)
    requires backend != null ==> Ready(backend.mem[..])
    ensures ret == if backend == null then ENODEV else if index >= NR_MSGS || !hasBuffer then EINVAL else 0
    ensures word == if ret == 0 then ReadSlot(backend.mem[..], index) else 0
  {
    if backend == null {
      return ENODEV, 0;
    }
    if index >= NR_MSGS {
      return EINVAL, 0;
    }
    if !hasBuffer {
      return EINVAL, 0;
    }
    var w := ReadWord(backend.mem, G2H_OFFSET + index * MSG_SIZE);
    return 0, w;
  }

  /** struct guest_ivshmem_device: BAR2, the G2H offset read from the header at probe, and whether G2H is mapped. */
  class GuestDevice {
    const bar2: array<byte>
    const g2hOffset: u64
    const mapped: bool

    constructor (bar2: array<byte>, g2hOffset: u64, mapped: bool)
      ensures this.bar2 == bar2 && this.g2hOffset == g2hOffset && this.mapped == mapped
    {
      this.bar2, this.g2hOffset, this.mapped := bar2, g2hOffset, mapped;
    }
  }

  /** What the PCI core grants a probe: the region, and the two mappings. */
  datatype Grants = Grants(region: bool, header: bool, g2h: bool)

  /** guest_ivshmem_probe: read the header, check it, map the G2H region it names. */
  method Probe(bar2: array<byte>, grants: Grants) returns (guest: GuestDevice?)
    requires bar2.Length < TWO_64
    ensures guest != null <==>
      && grants == Grants(true, true, true)
      && bar2.Length >= PAGE_SIZE && ProbeAccepts(HeaderAt(bar2[..]), bar2.Length)
    ensures guest != null ==>
      guest.bar2 == bar2 && guest.g2hOffset == HeaderAt(bar2[..]).g2hOffset && guest.mapped
  {
    if bar2.Length < PAGE_SIZE {
      return null;
    }
    if !grants.region || !grants.header {
      return null;
    }
    var header := HeaderAt(bar2[..]);
    if header.magic != MAGIC || header.version != VERSION {
      return null;
    }
    if header.h2gOffset != PAGE_SIZE {
      return null;
    }
    if bar2.Length < AsU64(header.g2hOffset + header.g2hSize) {
      return null;
    }
    if !grants.g2h {
      return null;
    }
    guest := new GuestDevice(bar2, header.g2hOffset, true);
  }

  /** guest_ivshmem_g2h_write_msg. */
  method G2hWriteMsg(guest: GuestDevice?, index: u32, msg: MsgPtr) returns (ret: int)
    requires guest != null ==> Ready(guest.bar2[..]) && guest.g2hOffset == HeaderAt(guest.bar2[..]).g2hOffset
    modifies if guest == null then {} else {guest.bar2}
    ensures ret == if msg.Null? || index >= NR_MSGS then EINVAL
                   else if guest == null then ENODEV else if !guest.mapped then EIO else 0
    ensures guest != null ==>
      guest.bar2[..] == if msg.Null? || !guest.mapped then old(guest.bar2[..])
                        else Apply(old(guest.bar2[..]), GuestWrite(index, msg.word))
  {
    if msg.Null? {
      return EINVAL;
    }
    if index >= NR_MSGS {
      return EINVAL;
    }
    if guest == null {
      return ENODEV;
    }
    if !guest.mapped {
      return EIO;
    }
    ghost var before := guest.bar2[..];
    assert guest.g2hOffset == G2H_OFFSET;
    WriteWord(guest.bar2, guest.g2hOffset + index * MSG_SIZE, msg.word);
    assert guest.bar2[..] == Apply(before, GuestWrite(index, msg.word));
    return 0;
  }
}

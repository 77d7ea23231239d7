/**
 The history ring in the H2G page: the modulo cursor of next_history_slot (timer.bpf.c), the
 increment-then-clamp cursor of h2g_msg_timer_callback (h2g_msg_timer.bpf.c), and what a
 single writer leaves in the slots.
 */
module HistoryRing {
  import opened MachineInts
  import opened ShmemLayout
  import opened SharedMemory

  /** History slots 1..63. */
  const HISTORY_SLOTS: nat := 63

  /** next_history_slot for write number n: the u32 cursor has advanced n times. */
  function ModuloSlot(n: nat): (slot: u32)
    ensures FIRST_HISTORY_SLOT <= slot < NR_MSGS
  {
    FIRST_HISTORY_SLOT + AsU32(n) % HISTORY_SLOTS
  }

  /** h2g_msg_timer_callback's index after n callbacks. */
  function ClampIndex(n: nat): u32 {
    if n == 0 then 0 else
    var index := AsU32(ClampIndex(n - 1) + 1);
    if index >= NR_MSGS then FIRST_HISTORY_SLOT
    else if index < FIRST_HISTORY_SLOT then FIRST_HISTORY_SLOT
    else index
  }

  lemma ClampStep(n: nat)
    requires ClampIndex(n) < NR_MSGS
    ensures ClampIndex(n + 1) == if ClampIndex(n) == NR_MSGS - 1 then FIRST_HISTORY_SLOT else ClampIndex(n) + 1
  {
  }

  /** Place r of round q. */
  lemma {:induction false} ClampAt(q: nat, r: nat)
    requires r < HISTORY_SLOTS
    ensures ClampIndex(HISTORY_SLOTS * q + r + 1) == FIRST_HISTORY_SLOT + r
    decreases q, r
  {
    if q == 0 && r == 0 {
    } else if r > 0 {
      ClampAt(q, r - 1);
    } else {
      ClampAt(q - 1, HISTORY_SLOTS - 1);
    }
    ClampStep(HISTORY_SLOTS * q + r);
  }

  /** The clamped cursor counts through the history slots for ever. */
  lemma ClampCycles(n: nat)
    ensures ClampIndex(n + 1) == FIRST_HISTORY_SLOT + n % HISTORY_SLOTS
  {
    ClampAt(n / HISTORY_SLOTS, n % HISTORY_SLOTS);
  }

  lemma DropMultiple(q: int, x: int)
    ensures (63 * q + x) % HISTORY_SLOTS == x % HISTORY_SLOTS
  {
  }

  /** 2^32 leaves remainder 4 modulo 63, so each lap of the u32 cursor shifts the ring by 4. */
  lemma LapShift(n: nat)
    ensures var laps, rest := n / TWO_32, n % TWO_32;
      n % HISTORY_SLOTS == (rest % HISTORY_SLOTS + 4 * (laps % HISTORY_SLOTS)) % HISTORY_SLOTS
  {
    var laps, rest := n / TWO_32, n % TWO_32;
    assert n == laps * TWO_32 + rest;
    var k, r, m, a := laps / 63, laps % 63, rest / 63, rest % 63;
    assert laps == 63 * k + r && rest == 63 * m + a;
    assert n == 63 * (68174084 * laps + 4 * k + m) + (a + 4 * r);
    DropMultiple(68174084 * laps + 4 * k + m, a + 4 * r);
  }

  lemma ShiftedAgree(a: nat, r: nat)
    requires a < HISTORY_SLOTS && r < HISTORY_SLOTS
    ensures (a + 4 * r) % HISTORY_SLOTS == a <==> r == 0
  {
    var q := (a + 4 * r) / 63;
    assert a + 4 * r == 63 * q + (a + 4 * r) % 63 && 0 <= q <= 4;
  }

  /** The two cursors write the same slot exactly in the laps whose number is a multiple of 63. */
  lemma CursorsAgreeIff(n: nat)
    ensures ModuloSlot(n) == ClampIndex(n + 1) <==> (n / TWO_32) % HISTORY_SLOTS == 0
  {
    ClampCycles(n);
    LapShift(n);
    ShiftedAgree((n % TWO_32) % HISTORY_SLOTS, (n / TWO_32) % HISTORY_SLOTS);
  }

  /** A single writer publishing msgs one by one with the modulo cursor. */
  ghost function Published(v: View, msgs: seq<u64>): (r: View)
    requires |v.history| == HISTORY_SLOTS && |v.runStates| == NR_MSGS
    ensures |r.history| == HISTORY_SLOTS && |r.runStates| == NR_MSGS
  {
    if |msgs| == 0 then v
    else AbstractApply(Published(v, msgs[..|msgs| - 1]), HostWrite(ModuloSlot(|msgs| - 1), msgs[|msgs| - 1]))
  }

  /** A message stays in its slot as long as no later one is written there. */
  lemma {:induction false} RingHoldsLast(v: View, msgs: seq<u64>, j: nat)
    requires |v.history| == HISTORY_SLOTS && |v.runStates| == NR_MSGS
    requires j < |msgs| && forall k :: j < k < |msgs| ==> ModuloSlot(k) != ModuloSlot(j)
    ensures Published(v, msgs).history[ModuloSlot(j) - 1] == msgs[j]
    decreases |msgs|
  {
    if j == |msgs| - 1 {
    } else {
      RingHoldsLast(v, msgs[..|msgs| - 1], j);
    }
  }

  /** The slot write k went to holds the message of k or of a later write to it. */
  lemma {:induction false} SlotHoldsLastWriter(v: View, msgs: seq<u64>, k: nat)
    requires |v.history| == HISTORY_SLOTS && |v.runStates| == NR_MSGS && k < |msgs|
    ensures exists m :: k <= m < |msgs| && ModuloSlot(m) == ModuloSlot(k)
                        && Published(v, msgs).history[ModuloSlot(k) - 1] == msgs[m]
    decreases |msgs|
  {
    if ModuloSlot(|msgs| - 1) == ModuloSlot(k) {
    } else {
      SlotHoldsLastWriter(v, msgs[..|msgs| - 1], k);
    }
  }

  // ---------------------------------------------------------------- when the ring is in order

  /** After n writes the u32 cursor does not stand less than 63 writes behind a wrap. */
  ghost predicate InOrder(n: nat) {
    n <= TWO_32 || n % TWO_32 == 0 || n % TWO_32 >= HISTORY_SLOTS
  }

  /** Message j is one of the last 63 of n. */
  ghost predicate Recent(n: nat, j: nat) {
    j < n <= j + HISTORY_SLOTS
  }

  lemma SameLapDistinct(j: nat, k: nat)
    requires j < k < j + HISTORY_SLOTS && j / TWO_32 == k / TWO_32
    ensures ModuloSlot(j) != ModuloSlot(k)
  {
    var a, b := AsU32(j), AsU32(k);
    assert b - a == k - j;
    DistinctSlots(a, b);
  }

  lemma DistinctSlots(j: nat, n: nat)
    requires j < n < j + HISTORY_SLOTS
    ensures j % HISTORY_SLOTS != n % HISTORY_SLOTS
  {
    var d := n - j;
    assert n % 63 == (j % 63 + d) % 63;
  }

  /** Two recent writes in different laps: the wrap is among the last 62 writes. */
  lemma WrapIsRecent(n: nat, j: nat, k: nat)
    requires j < k < n <= j + HISTORY_SLOTS && j / TWO_32 != k / TWO_32
    ensures n > TWO_32 && 0 < n % TWO_32 < HISTORY_SLOTS
  {
    var w := (k / TWO_32) * TWO_32;
    assert j < w <= k;
    assert n == w + (n - w) && 0 < n - w < HISTORY_SLOTS;
    assert n % TWO_32 == n - w by {
      WrapIgnores(k / TWO_32, n - w);
    }
  }

  lemma WrapIgnores(laps: nat, r: nat)
    requires r < TWO_32
    ensures (laps * TWO_32 + r) % TWO_32 == r
  {
  }

  /** Just after a wrap w, writes w - 1 and w + 3, or w - 4 and w, went to the same slot. */
  lemma CollisionAtWrap(n: nat) returns (j: nat, k: nat)
    requires !InOrder(n)
    ensures Recent(n, j) && Recent(n, k) && j < k && ModuloSlot(j) == ModuloSlot(k)
  {
    var laps, r := n / TWO_32, n % TWO_32;
    assert n == laps * TWO_32 + r && laps >= 1;
    if r >= 4 {
      j, k := n - r - 1, n - r + 3;
      WrapIgnores(laps - 1, TWO_32 - 1);
      WrapIgnores(laps, 3);
      assert j == (laps - 1) * TWO_32 + (TWO_32 - 1) && k == laps * TWO_32 + 3;
    } else {
      j, k := n - r - 4, n - r;
      WrapIgnores(laps - 1, TWO_32 - 4);
      WrapIgnores(laps, 0);
      assert j == (laps - 1) * TWO_32 + (TWO_32 - 4) && k == laps * TWO_32 + 0;
    }
  }

  /** The last 63 writes went to different slots exactly when the ring is in order. */
  lemma RecentSlotsDistinctIff(n: nat)
    ensures (forall j: nat, k: nat :: Recent(n, j) && Recent(n, k) && j < k ==> ModuloSlot(j) != ModuloSlot(k))
      <==> InOrder(n)
  {
    if InOrder(n) {
      forall j: nat, k: nat | Recent(n, j) && Recent(n, k) && j < k
        ensures ModuloSlot(j) != ModuloSlot(k)
      {
        if j / TWO_32 == k / TWO_32 {
          SameLapDistinct(j, k);
        } else {
          WrapIsRecent(n, j, k);
        }
      }
    } else {
      var j, k := CollisionAtWrap(n);
    }
  }

  /** Each of the last min(n, 63) messages is in the slot it was written to. */
  ghost predicate HoldsRecent(v: View, msgs: seq<u64>)
    requires |v.history| == HISTORY_SLOTS && |v.runStates| == NR_MSGS
  {
    forall j: nat :: Recent(|msgs|, j) ==> Published(v, msgs).history[ModuloSlot(j) - 1] == msgs[j]
  }

  lemma InOrderHoldsRecent(v: View, msgs: seq<u64>)
    requires |v.history| == HISTORY_SLOTS && |v.runStates| == NR_MSGS && InOrder(|msgs|)
    ensures HoldsRecent(v, msgs)
  {
    forall j: nat | Recent(|msgs|, j)
      ensures Published(v, msgs).history[ModuloSlot(j) - 1] == msgs[j]
    {
      RecentSlotsDistinctIff(|msgs|);
      assert forall k: nat :: j < k < |msgs| ==> Recent(|msgs|, k);
      RingHoldsLast(v, msgs, j);
    }
  }

  lemma RecentInHistory(v: View, msgs: seq<u64>, j: nat)
    requires |v.history| == HISTORY_SLOTS && |v.runStates| == NR_MSGS && InOrder(|msgs|) && Recent(|msgs|, j)
    ensures Published(v, msgs).history[ModuloSlot(j) - 1] == msgs[j]
  {
    InOrderHoldsRecent(v, msgs);
  }

  /**
   Given different messages, the history holds all of the last min(n, 63) of them if and only
   if n <= 2^32, or the cursor has just wrapped, or it wrapped at least 63 writes ago: each
   wrap after the first lap costs the order for the 62 writes that follow it.
   */
  lemma RingInOrderIff(v: View, msgs: seq<u64>)
    requires |v.history| == HISTORY_SLOTS && |v.runStates| == NR_MSGS
    requires forall j: nat, k: nat :: Recent(|msgs|, j) && Recent(|msgs|, k) && j < k ==> msgs[j] != msgs[k]
    ensures HoldsRecent(v, msgs) <==> InOrder(|msgs|)
  {
    if InOrder(|msgs|) {
      InOrderHoldsRecent(v, msgs);
    } else {
      var j, k := CollisionAtWrap(|msgs|);
      SlotHoldsLastWriter(v, msgs, k);
      var m :| k <= m < |msgs| && ModuloSlot(m) == ModuloSlot(k)
               && Published(v, msgs).history[ModuloSlot(k) - 1] == msgs[m];
      assert Recent(|msgs|, m) && msgs[j] != msgs[m];
    }
  }

  lemma FirstSlots(n: nat)
    requires n < HISTORY_SLOTS
    ensures ModuloSlot(n) == FIRST_HISTORY_SLOT + n
  {
  }

  lemma {:induction false} RingKeepsUnwritten(v: View, msgs: seq<u64>, k: nat)
    requires |v.history| == HISTORY_SLOTS && |v.runStates| == NR_MSGS
    requires |msgs| <= k < HISTORY_SLOTS
    ensures Published(v, msgs).history[k] == v.history[k]
    decreases |msgs|
  {
    if |msgs| == 0 {
    } else {
      RingKeepsUnwritten(v, msgs[..|msgs| - 1], k);
      FirstSlots(|msgs| - 1);
    }
  }

  /**
   Whenever the ring is in order, slot 0 mirrors the newest message and the history is the
   last min(n, 63) messages, each in its own slot, over the old contents; run states and
   header are untouched.
   */
  lemma RingIsLastMessages(v: View, msgs: seq<u64>)
    requires |v.history| == HISTORY_SLOTS && |v.runStates| == NR_MSGS
    requires 0 < |msgs| && InOrder(|msgs|)
    ensures var r := Published(v, msgs);
      && r.latest == msgs[|msgs| - 1]
      && (forall k {:trigger r.history[k]} :: 0 <= k < HISTORY_SLOTS && k >= |msgs| ==> r.history[k] == v.history[k])
      && HoldsRecent(v, msgs)
      && r.runStates == v.runStates && r.header == v.header
  {
    var r := Published(v, msgs);
    forall k | 0 <= k < HISTORY_SLOTS && k >= |msgs|
      ensures r.history[k] == v.history[k]
    {
      RingKeepsUnwritten(v, msgs, k);
    }
    InOrderHoldsRecent(v, msgs);
    PublishKeepsRest(v, msgs);
  }

  lemma {:induction false} PublishKeepsRest(v: View, msgs: seq<u64>)
    requires |v.history| == HISTORY_SLOTS && |v.runStates| == NR_MSGS
    ensures Published(v, msgs).runStates == v.runStates && Published(v, msgs).header == v.header
  {
    if |msgs| == 0 {
    } else {
      PublishKeepsRest(v, msgs[..|msgs| - 1]);
    }
  }

  /** One write past the first wrap, a message older than the last 63 survives in slot 5. */
  lemma OrderLostAtWrap(v: View, msgs: seq<u64>)
    requires |v.history| == HISTORY_SLOTS && |v.runStates| == NR_MSGS
    requires |msgs| == TWO_32 + 1
    ensures !InOrder(|msgs|)
    ensures var r := Published(v, msgs);
      r.history[0] == msgs[TWO_32] && r.history[4] == msgs[|msgs| - 1 - HISTORY_SLOTS]
  {
    var before, j := msgs[..|msgs| - 1], TWO_32 - HISTORY_SLOTS;
    InOrderHoldsRecent(v, before);
    assert Recent(|before|, j) && before[j] == msgs[j];
    assert ModuloSlot(j) == 5 && ModuloSlot(TWO_32) == 1;
  }

  // ---------------------------------------------------------------- the source's in-place form

  /** vm_t's history cursor and the other timer's index. */
  class Cursors {
    var historyIndex: u32
    var index: u32

    constructor ()
      ensures historyIndex == 0 && index == 0
    {
      historyIndex, index := 0, 0;
    }

    /** next_history_slot, for a cursor that has served n writes. */
    method NextHistorySlot(ghost n: nat) returns (slot: u32)
      requires historyIndex == AsU32(n)
      modifies this`historyIndex
      ensures slot == ModuloSlot(n) && historyIndex == AsU32(n + 1)
    {
      var idx := historyIndex % HISTORY_SLOTS;
      historyIndex := AsU32(historyIndex + 1);
      return FIRST_HISTORY_SLOT + idx;
    }

    /** The cursor part of h2g_msg_timer_callback. */
    method AdvanceClamped(ghost n: nat) returns (slot: u32)
      requires index == ClampIndex(n)
      modifies this`index
      ensures slot == index == ClampIndex(n + 1)
    {
      index := AsU32(index + 1);
      if index >= NR_MSGS {
        index := FIRST_HISTORY_SLOT;
      }
      if index < FIRST_HISTORY_SLOT {
        index := FIRST_HISTORY_SLOT;
      }
      return index;
    }
  }
}

/**
 The 64-bit watermark (write_watermark in timer.bpf.c): 32 bits of time, 16 bits of phantom
 average, 16 bits of idle average. Decoding follows the layout that function documents.
 */
module Watermark {
  import opened MachineInts
  import PhantomWindow
  import SampleBuffers
  import IdleTracker

  /** The source's masks and shifts. */
  function PackBits(ts: bv64, phantom: bv64, idle: bv64): bv64 {
    ((ts & 0xffff_ffff) << 32) | ((phantom & 0xffff) << 16) | (idle & 0xffff)
  }

  /** The three fields do not overlap, so the disjunction is a sum. */
  lemma FieldsAreDisjoint(ts: bv64, phantom: bv64, idle: bv64)
    ensures PackBits(ts, phantom, idle)
         == ((ts & 0xffff_ffff) << 32) + ((phantom & 0xffff) << 16) + (idle & 0xffff)
    ensures PackBits(ts, phantom, idle) >> 32 == ts & 0xffff_ffff
    ensures (PackBits(ts, phantom, idle) >> 16) & 0xffff == phantom & 0xffff
    ensures PackBits(ts, phantom, idle) & 0xffff == idle & 0xffff
  {
  }

  /** The same word as a number: masks are remainders, shifts are products. */
  function Pack(ts: u64, phantom: s64, idle: u64): (w: u64) {
    (ts % 0x1_0000_0000) * 0x1_0000_0000 + (AsU64(phantom) % 0x1_0000) * 0x1_0000 + idle % 0x1_0000
  }

  datatype Fields = Fields(ts: u32, phantom: nat, idle: nat)

  function Unpack(w: u64): Fields {
    Fields(w / 0x1_0000_0000, (w / 0x1_0000) % 0x1_0000, w % 0x1_0000)
  }

  lemma UnpackPacked(a: nat, b: nat, c: nat)
    requires a < 0x1_0000_0000 && b < 0x1_0000 && c < 0x1_0000
    ensures a * 0x1_0000_0000 + b * 0x1_0000 + c < TWO_64
    ensures Unpack(a * 0x1_0000_0000 + b * 0x1_0000 + c) == Fields(a, b, c)
  {
    var w := a * 0x1_0000_0000 + b * 0x1_0000 + c;
    assert w / 0x1_0000 == a * 0x1_0000 + b;
  }

  /** Decoding returns exactly what was packed iff both averages fit their 16 bits. */
  lemma DecodeExactIff(ts: u64, phantom: s64, idle: u64)
    ensures Unpack(Pack(ts, phantom, idle)) == Fields(ts % TWO_32, AsU64(phantom) % 0x1_0000, idle % 0x1_0000)
    ensures (Unpack(Pack(ts, phantom, idle)).phantom == phantom && Unpack(Pack(ts, phantom, idle)).idle == idle)
      <==> (0 <= phantom < 0x1_0000 && idle < 0x1_0000)
  {
    UnpackPacked(ts % 0x1_0000_0000, AsU64(phantom) % 0x1_0000, idle % 0x1_0000);
  }

  lemma FieldsDecode(ts: u64, phantom: s64, idle: u64)
    requires 0 <= phantom < 0x1_0000 && idle < 0x1_0000
    ensures Unpack(Pack(ts, phantom, idle)) == Fields(ts % TWO_32, phantom, idle)
  {
    DecodeExactIff(ts, phantom, idle);
  }

  /** The idle field does not depend on the other two. */
  lemma IdleFieldDecodes(ts: u64, phantom: s64, idle: u64)
    requires idle < 0x1_0000
    ensures Unpack(Pack(ts, phantom, idle)).idle == idle
  {
    DecodeExactIff(ts, phantom, idle);
  }

  lemma {:induction false} IdleAverageBound(nbCpus: u32, events: seq<IdleTracker.Event>)
    ensures IdleTracker.Exec(nbCpus, events).lastIdleAvg <= nbCpus
  {
    if |events| == 0 {
    } else {
      IdleAverageBound(nbCpus, events[..|events| - 1]);
    }
  }

  /**
   Whatever the clock does, on machines and VMs below 65536 CPUs every published word decodes
   to the time modulo 2^32, the phantom average and the idle average, as long as nb_vcpus
   times the time the tick accumulated is below 2^64.
   */
  lemma PublishedWatermarkDecodes(
    nbVcpus: u32, capacity: nat, events: seq<PhantomWindow.Event>, tEnd: u64, tStart: u64,
    nbCpus: u32, idleEvents: seq<IdleTracker.Event>, ts: u64)
    requires nbVcpus < 0x1_0000 && nbCpus < 0x1_0000
    requires var m := PhantomWindow.ExecFrom(PhantomWindow.Registered(nbVcpus, capacity), events);
      nbVcpus * SampleBuffers.TickTime(PhantomWindow.AtAverage(m, tEnd, tStart)) < TWO_64
    ensures var m := PhantomWindow.ExecFrom(PhantomWindow.Registered(nbVcpus, capacity), events);
      var avg := PhantomWindow.TickValue(m, tEnd, tStart);
      var idle := IdleTracker.Exec(nbCpus, idleEvents).lastIdleAvg;
      avg >= 0 && Unpack(Pack(ts, avg, idle)) == Fields(ts % TWO_32, avg, idle)
  {
    PhantomWindow.TickInRange(nbVcpus, capacity, events, tEnd, tStart);
    IdleAverageBound(nbCpus, idleEvents);
    var m := PhantomWindow.ExecFrom(PhantomWindow.Registered(nbVcpus, capacity), events);
    DecodeExactIff(ts, PhantomWindow.TickValue(m, tEnd, tStart), IdleTracker.Exec(nbCpus, idleEvents).lastIdleAvg);
  }

  /** Under a monotone clock the phantom field decodes to the true mean of the counter. */
  lemma PublishedTrueMeanDecodes(
    nbVcpus: u32, capacity: nat, events: seq<PhantomWindow.Event>, tEnd: u64, tStart: u64,
    nbCpus: u32, idleEvents: seq<IdleTracker.Event>, ts: u64)
    requires nbVcpus < 0x1_0000 && nbCpus < 0x1_0000
    requires 1 <= capacity <= TWO_32 && PhantomWindow.Monotone(events + [PhantomWindow.Tick(tEnd, tStart)])
    requires PhantomWindow.WindowSize(events) < TWO_32
    requires nbVcpus * (PhantomWindow.StopTime(nbVcpus, capacity, events, tEnd)
                        - PhantomWindow.WindowStart(events, tEnd)) < TWO_64
    ensures var m := PhantomWindow.ExecFrom(PhantomWindow.Registered(nbVcpus, capacity), events);
      var avg := PhantomWindow.TickValue(m, tEnd, tStart);
      var idle := IdleTracker.Exec(nbCpus, idleEvents).lastIdleAvg;
      && avg == PhantomWindow.TrueMean(nbVcpus, events, PhantomWindow.WindowStart(events, tEnd),
                                       PhantomWindow.StopTime(nbVcpus, capacity, events, tEnd))
      && avg >= 0
      && Unpack(Pack(ts, avg, idle)) == Fields(ts % TWO_32, avg, idle)
  {
    PhantomWindow.TickAveragesTrueCount(nbVcpus, capacity, events, tEnd, tStart);
    IdleAverageBound(nbCpus, idleEvents);
    var m := PhantomWindow.ExecFrom(PhantomWindow.Registered(nbVcpus, capacity), events);
    DecodeExactIff(ts, PhantomWindow.TickValue(m, tEnd, tStart), IdleTracker.Exec(nbCpus, idleEvents).lastIdleAvg);
  }
}

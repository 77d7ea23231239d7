/**
 The double-buffered sample log. Switch handlers append to the active half; the timer
 callback opens a fresh half, flips, closes the retired half and averages it
 (callback_fn in timer.bpf.c, idle_avg_timer_cb in global_running_tracker.bpf.c).

 A whole handler is one step. The timer callback is split into its shared-memory accesses,
 and handlers may run between any two of them. The abstraction is a list of windows.
 */
module SampleBuffers {
  import opened MachineInts
  import opened WeightedAverage

  /** BPF array update: an index past the end is refused. */
  function Store(entries: seq<Sample>, at: nat, s: Sample): seq<Sample> {
    if at < |entries| then entries[at := s] else entries
  }

  /** One array map and its u32 fetch-and-add index. */
  datatype Half = Half(entries: seq<Sample>, index: u32) {
    function Put(s: Sample): Half {
      Half(Store(entries, index, s), AsU32(index + 1))
    }
  }

  /** How far the timer callback has got; `end` and `endIdx` are its local variables. */
  datatype Phase =
    | Quiet
    | Started(end: Sample)
    | Cleared(end: Sample)
    | Flipped(end: Sample)
    | Reserved(end: Sample, endIdx: u32)
    | Ended(endIdx: u32)

  datatype Buffers = Buffers(one: Half, two: Half, inOne: bool, phase: Phase) {
    function Active(): Half {
      if inOne then one else two
    }

    function Other(): Half {
      if inOne then two else one
    }

    function WithActive(h: Half): Buffers {
      if inOne then this.(one := h) else this.(two := h)
    }

    function WithOther(h: Half): Buffers {
      if inOne then this.(two := h) else this.(one := h)
    }
  }

  datatype Action =
    | Append(s: Sample)
    | WriteStart(start: Sample, end: Sample)
    | ClearIndex
    | Flip
    | ReserveEnd
    | WriteEnd
    | Average

  predicate Enabled(b: Buffers, a: Action) {
    match a
    case Append(_) => true
    case WriteStart(_, _) => b.phase.Quiet?
    case ClearIndex => b.phase.Started?
    case Flip => b.phase.Cleared?
    case ReserveEnd => b.phase.Flipped?
    case WriteEnd => b.phase.Reserved?
    case Average => b.phase.Ended?
  }

  function Step(b: Buffers, a: Action): Buffers
    requires Enabled(b, a)
  {
    match a
    case Append(s) => b.WithActive(b.Active().Put(s))
    case WriteStart(start, end) =>
      b.WithOther(b.Other().(entries := Store(b.Other().entries, 0, start))).(phase := Started(end))
    case ClearIndex => b.WithOther(b.Other().(index := 1)).(phase := Cleared(b.phase.end))
    case Flip => b.(inOne := !b.inOne, phase := Flipped(b.phase.end))
    case ReserveEnd =>
      b.WithOther(b.Other().(index := AsU32(b.Other().index + 1))).(phase := Reserved(b.phase.end, b.Other().index))
    case WriteEnd =>
      b.WithOther(b.Other().(entries := Store(b.Other().entries, b.phase.endIdx, b.phase.end)))
        .(phase := Ended(b.phase.endIdx))
    case Average => b.(phase := Quiet)
  }

  /** The value a tick in phase `Ended` takes its average from. */
  function TickAverage(b: Buffers): s64
    requires b.phase.Ended?
  {
    MachineMean(b.Other().entries, b.phase.endIdx)
  }

  /** The time it accumulates on the way. */
  function TickTime(b: Buffers): nat
    requires b.phase.Ended?
  {
    TotalTime(b.Other().entries, Span(b.Other().entries, b.phase.endIdx))
  }

  /** A freshly registered pair: zeroed arrays, both indices zero, the second half active. */
  function Fresh(capacity: nat): Buffers {
    var empty := Half(seq(capacity, _ => Sample(0, 0)), 0);
    Buffers(empty, empty, false, Quiet)
  }

  // ---------------------------------------------------------------- abstraction

  /** What one averaging window is about: boundary samples around the handlers' samples. */
  datatype Window = Window(start: seq<Sample>, body: seq<Sample>, end: seq<Sample>) {
    function Samples(): seq<Sample> {
      start + body + end
    }
  }

  datatype Windows = Windows(open: Window, next: Window, retired: Window, ending: seq<Sample>, closed: seq<Window>)

  const NO_SAMPLES := Window([], [], [])
  const NO_WINDOWS := Windows(NO_SAMPLES, NO_SAMPLES, NO_SAMPLES, [], [])

  /** The same actions on windows: no arrays, no indices, no flag. */
  function AbstractStep(w: Windows, a: Action): Windows {
    match a
    case Append(s) => w.(open := w.open.(body := w.open.body + [s]))
    case WriteStart(start, end) => w.(next := Window([start], [], []), ending := [end])
    case ClearIndex => w
    case Flip => w.(retired := w.open, open := w.next, next := NO_SAMPLES)
    case ReserveEnd => w
    case WriteEnd => w.(retired := w.retired.(end := w.ending))
    case Average => w.(closed := w.closed + [w.retired], retired := NO_SAMPLES, ending := [])
  }

  ghost predicate Legal(b: Buffers, acts: seq<Action>)
    decreases |acts|, 0
  {
    |acts| == 0 || (Legal(b, acts[..|acts| - 1]) && Enabled(Exec(b, acts[..|acts| - 1]), acts[|acts| - 1]))
  }

  ghost function Exec(b: Buffers, acts: seq<Action>): Buffers
    requires Legal(b, acts)
    decreases |acts|, 1
  {
    if |acts| == 0 then b else Step(Exec(b, acts[..|acts| - 1]), acts[|acts| - 1])
  }

  ghost function AbstractExec(acts: seq<Action>): Windows {
    if |acts| == 0 then NO_WINDOWS else AbstractStep(AbstractExec(acts[..|acts| - 1]), acts[|acts| - 1])
  }

  // ---------------------------------------------------------------- refinement

  /** Array element j is the sample of this window whose u32 index was j. */
  ghost predicate HeldAt(e: Sample, samples: seq<Sample>, j: nat) {
    exists m :: 0 <= m < |samples| && samples[m] == e && m % TWO_32 == j
  }

  /** Every array element below the number of samples stems from these samples. */
  ghost predicate Holds(entries: seq<Sample>, samples: seq<Sample>) {
    forall j :: 0 <= j < |entries| && j < |samples| ==> HeldAt(entries[j], samples, j)
  }

  ghost predicate Tracks(h: Half, samples: seq<Sample>) {
    h.index == |samples| % TWO_32 && Holds(h.entries, samples)
  }

  ghost predicate Refines(b: Buffers, w: Windows) {
    && 1 <= |b.one.entries| == |b.two.entries| <= TWO_32
    && Tracks(b.Active(), w.open.Samples())
    && w.open.end == [] && |w.open.start| <= 1
    && match b.phase
       case Quiet => w.retired == NO_SAMPLES
       case Started(end) => |w.next.start| == 1 && w.next == Window(w.next.start, [], [])
                            && w.ending == [end] && Holds(b.Other().entries, w.next.Samples())
                            && w.retired == NO_SAMPLES
       case Cleared(end) => |w.next.start| == 1 && w.next == Window(w.next.start, [], [])
                            && w.ending == [end] && Tracks(b.Other(), w.next.Samples())
                            && w.retired == NO_SAMPLES
       case Flipped(end) => w.ending == [end] && w.retired.end == [] && Tracks(b.Other(), w.retired.Samples())
       case Reserved(end, endIdx) => w.ending == [end] && w.retired.end == []
                                     && endIdx == |w.retired.Samples()| % TWO_32
                                     && Holds(b.Other().entries, w.retired.Samples())
       case Ended(endIdx) => |w.retired.end| == 1 && endIdx == (|w.retired.Samples()| - 1) % TWO_32
                             && Holds(b.Other().entries, w.retired.Samples())
  }

  /** Storing the next sample at its u32 index keeps the array in step with the window. */
  lemma StoreHolds(entries: seq<Sample>, samples: seq<Sample>, s: Sample)
    requires |entries| <= TWO_32 && Holds(entries, samples)
    ensures Holds(Store(entries, |samples| % TWO_32, s), samples + [s])
  {
    var after, grown := Store(entries, |samples| % TWO_32, s), samples + [s];
    forall j | 0 <= j < |after| && j < |grown|
      ensures HeldAt(after[j], grown, j)
    {
      if j == |samples| % TWO_32 {
        assert grown[|samples|] == s;
      } else {
        assert HeldAt(entries[j], samples, j);
        var m :| 0 <= m < |samples| && samples[m] == entries[j] && m % TWO_32 == j;
        assert grown[m] == after[j];
      }
    }
  }

  lemma AppendRefines(b: Buffers, w: Windows, s: Sample)
    requires Refines(b, w)
    ensures Refines(Step(b, Append(s)), AbstractStep(w, Append(s)))
  {
    var samples := w.open.Samples();
    StoreHolds(b.Active().entries, samples, s);
    assert AbstractStep(w, Append(s)).open.Samples() == samples + [s];
    assert Tracks(b.Active().Put(s), samples + [s]);
  }

  lemma WriteStartRefines(b: Buffers, w: Windows, start: Sample, end: Sample)
    requires Refines(b, w) && b.phase.Quiet?
    ensures Refines(Step(b, WriteStart(start, end)), AbstractStep(w, WriteStart(start, end)))
    ensures var b' := Step(b, WriteStart(start, end));
      b'.Active() == b.Active() && b'.Other().entries[1..] == b.Other().entries[1..]
  {
    assert Window([start], [], []).Samples() == [start];
    assert HeldAt(start, [start], 0) by { assert [start][0] == start; }
  }

  lemma WriteEndRefines(b: Buffers, w: Windows)
    requires Refines(b, w) && b.phase.Reserved?
    ensures Refines(Step(b, WriteEnd), AbstractStep(w, WriteEnd))
  {
    StoreHolds(b.Other().entries, w.retired.Samples(), b.phase.end);
    assert AbstractStep(w, WriteEnd).retired.Samples() == w.retired.Samples() + [b.phase.end];
  }

  /**
   From the flip to the average, with handlers anywhere in between, the retired array changes
   by exactly one store: the end sample, at the index reserved for it.
   */
  lemma {:induction false} RetiredReceivesOnlyEnd(b: Buffers, acts: seq<Action>)
    requires b.phase.Flipped? && Legal(b, acts)
    requires forall k :: 0 <= k < |acts| ==> !acts[k].Average?
    ensures var r, retired := Exec(b, acts), b.Other();
      && r.inOne == b.inOne
      && match r.phase
         case Flipped(end) => end == b.phase.end && r.Other() == retired
         case Reserved(end, endIdx) =>
           end == b.phase.end && endIdx == retired.index && r.Other().entries == retired.entries
         case Ended(endIdx) =>
           endIdx == retired.index && r.Other().entries == Store(retired.entries, retired.index, b.phase.end)
         case _ => false
  {
    if |acts| == 0 {
    } else {
      RetiredReceivesOnlyEnd(b, acts[..|acts| - 1]);
    }
  }

  /** Each shared-memory access of handler and callback refines its effect on windows. */
  lemma StepRefines(b: Buffers, w: Windows, a: Action)
    requires Refines(b, w) && Enabled(b, a)
    ensures Refines(Step(b, a), AbstractStep(w, a))
  {
    match a
    case Append(s) => AppendRefines(b, w, s);
    case WriteStart(start, end) => WriteStartRefines(b, w, start, end);
    case WriteEnd => WriteEndRefines(b, w);
    case ClearIndex =>
    case Flip =>
    case ReserveEnd =>
    case Average =>
  }

  /** Every run of the buffers, handlers interleaved anywhere in the callback, refines windows. */
  lemma {:induction false} BuffersRefineWindows(capacity: nat, acts: seq<Action>)
    requires 1 <= capacity <= TWO_32 && Legal(Fresh(capacity), acts)
    ensures Refines(Exec(Fresh(capacity), acts), AbstractExec(acts))
  {
    if |acts| == 0 {
    } else {
      BuffersRefineWindows(capacity, acts[..|acts| - 1]);
      StepRefines(Exec(Fresh(capacity), acts[..|acts| - 1]), AbstractExec(acts[..|acts| - 1]), acts[|acts| - 1]);
    }
  }

  /** The part of a window that fits the array. */
  function Covered(samples: seq<Sample>, capacity: nat): seq<Sample> {
    if |samples| <= capacity then samples else samples[..capacity]
  }

  /**
   Every entry an average reads was written in the window being closed, whether or not the
   window overflowed the array or even the u32 index.
   */
  lemma AverageReadsOnlyItsWindow(capacity: nat, acts: seq<Action>, k: nat)
    requires 1 <= capacity <= TWO_32 && Legal(Fresh(capacity), acts)
    requires var b := Exec(Fresh(capacity), acts);
      b.phase.Ended? && k <= Span(b.Other().entries, b.phase.endIdx) && k < |b.Other().entries|
    ensures HeldAt(Exec(Fresh(capacity), acts).Other().entries[k], AbstractExec(acts).retired.Samples(), k)
  {
    BuffersRefineWindows(capacity, acts);
  }

  /**
   Unless more than 2^32 samples were taken, the average is the one over the window's own
   samples in order, cut at the capacity of the array.
   */
  lemma AverageIsOfWindow(b: Buffers, w: Windows, capacity: nat)
    requires Refines(b, w) && b.phase.Ended?
    requires |w.retired.Samples()| <= TWO_32 && capacity == |b.one.entries|
    ensures var c := Covered(w.retired.Samples(), capacity);
      TickAverage(b) == MachineMean(c, |c| - 1)
  {
    var entries, samples := b.Other().entries, w.retired.Samples();
    assert |entries| == capacity;
    AverageOfHeld(entries, samples, b.phase.endIdx);
  }

  lemma AverageOfHeld(entries: seq<Sample>, samples: seq<Sample>, endIdx: u32)
    requires Holds(entries, samples) && |entries| >= 1 && 1 <= |samples| <= TWO_32
    requires endIdx == (|samples| - 1) % TWO_32
    ensures var c := Covered(samples, |entries|);
      MachineMean(entries, endIdx) == MachineMean(c, |c| - 1)
  {
    var c := Covered(samples, |entries|);
    HeldPrefix(entries, samples);
    SpanOfHeld(entries, samples, endIdx);
    MachineMeanReadsPrefix(entries, endIdx, c, |c| - 1);
  }

  lemma SpanOfHeld(entries: seq<Sample>, samples: seq<Sample>, endIdx: u32)
    requires |entries| >= 1 && 1 <= |samples| <= TWO_32 && endIdx == (|samples| - 1) % TWO_32
    ensures var c := Covered(samples, |entries|);
      Span(entries, endIdx) == |c| - 1 == Span(c, |c| - 1)
  {
    assert endIdx == |samples| - 1;
  }

  /** The same for the accumulated time. */
  lemma TimeIsOfWindow(b: Buffers, w: Windows, capacity: nat)
    requires Refines(b, w) && b.phase.Ended?
    requires |w.retired.Samples()| <= TWO_32 && capacity == |b.one.entries|
    ensures var c := Covered(w.retired.Samples(), capacity);
      TickTime(b) == TotalTime(c, |c| - 1)
  {
    TimeOfHeld(b.Other().entries, w.retired.Samples(), b.phase.endIdx);
  }

  lemma TimeOfHeld(entries: seq<Sample>, samples: seq<Sample>, endIdx: u32)
    requires Holds(entries, samples) && |entries| >= 1 && 1 <= |samples| <= TWO_32
    requires endIdx == (|samples| - 1) % TWO_32
    ensures var c := Covered(samples, |entries|);
      TotalTime(entries, Span(entries, endIdx)) == TotalTime(c, |c| - 1)
  {
    var c := Covered(samples, |entries|);
    HeldPrefix(entries, samples);
    SpanOfHeld(entries, samples, endIdx);
    SumsReadPrefix(entries, c, |c| - 1);
  }

  /** Below 2^32 samples the array is the window itself, entry by entry. */
  lemma HeldPrefix(entries: seq<Sample>, samples: seq<Sample>)
    requires Holds(entries, samples) && |samples| <= TWO_32
    ensures entries[..|Covered(samples, |entries|)|] == Covered(samples, |entries|)
  {
    var c := Covered(samples, |entries|);
    forall j | 0 <= j < |c|
      ensures entries[j] == c[j]
    {
      assert HeldAt(entries[j], samples, j);
    }
  }

  // ---------------------------------------------------------------- conservation

  ghost function Appended(acts: seq<Action>): seq<Sample> {
    if |acts| == 0 then []
    else Appended(acts[..|acts| - 1]) + (if acts[|acts| - 1].Append? then [acts[|acts| - 1].s] else [])
  }

  ghost function Bodies(ws: seq<Window>): seq<Sample> {
    if |ws| == 0 then [] else Bodies(ws[..|ws| - 1]) + ws[|ws| - 1].body
  }

  ghost function AllBodies(w: Windows): seq<Sample> {
    Bodies(w.closed) + w.retired.body + w.open.body
  }

  lemma StepKeepsSamples(b: Buffers, w: Windows, a: Action)
    requires Refines(b, w) && Enabled(b, a)
    ensures Refines(Step(b, a), AbstractStep(w, a))
    ensures AllBodies(AbstractStep(w, a)) == AllBodies(w) + (if a.Append? then [a.s] else [])
  {
    StepRefines(b, w, a);
    if a.Average? {
      assert (w.closed + [w.retired])[..|w.closed|] == w.closed;
    }
  }

  /**
   The arrays hold windows among which every handler's sample lies in exactly one, in order:
   the bodies of all windows, closed, retired and open, concatenate to the appended samples.
   */
  lemma {:induction false} EverySampleInOneWindow(capacity: nat, acts: seq<Action>)
    requires 1 <= capacity <= TWO_32 && Legal(Fresh(capacity), acts)
    ensures Refines(Exec(Fresh(capacity), acts), AbstractExec(acts))
    ensures AllBodies(AbstractExec(acts)) == Appended(acts)
  {
    if |acts| == 0 {
    } else {
      var before := acts[..|acts| - 1];
      EverySampleInOneWindow(capacity, before);
      StepKeepsSamples(Exec(Fresh(capacity), before), AbstractExec(before), acts[|acts| - 1]);
    }
  }

  // ---------------------------------------------------------------- the source's in-place form

  /** vm_t's buffer fields with the two BPF arrays, updated in place. */
  class TrackerBuffers {
    const buff1: array<Sample>
    const buff2: array<Sample>
    var idx1: u32
    var idx2: u32
    var collectingInBuff1: bool
    var phase: Phase

    ghost predicate Valid() {
      buff1 != buff2 && 1 <= buff1.Length == buff2.Length <= TWO_32
    }

    ghost function Model(): Buffers
      reads this, buff1, buff2
    {
      Buffers(Half(buff1[..], idx1), Half(buff2[..], idx2), collectingInBuff1, phase)
    }

    constructor (capacity: nat)
      requires 1 <= capacity <= TWO_32
      ensures Valid() && fresh(buff1) && fresh(buff2) && buff1.Length == capacity
      ensures Model() == Fresh(capacity)
    {
      buff1 := new Sample[capacity](_ => Sample(0, 0));
      buff2 := new Sample[capacity](_ => Sample(0, 0));
      idx1, idx2, collectingInBuff1, phase := 0, 0, false, Quiet;
      new;
      assert buff1[..] == Fresh(capacity).one.entries;
      assert buff2[..] == Fresh(capacity).two.entries;
    }

    /** A handler's sample: reserve an index in the active half, write if it fits. */
    method RecordSample(s: Sample)
      requires Valid()
      modifies this, buff1, buff2
      ensures Model() == Step(old(Model()), Append(s))
    {
      if collectingInBuff1 {
        var idx := idx1;
        idx1 := AsU32(idx1 + 1);
        if idx < buff1.Length {
          buff1[idx] := s;
        }
      } else {
        var idx := idx2;
        idx2 := AsU32(idx2 + 1);
        if idx < buff2.Length {
          buff2[idx] := s;
        }
      }
    }

    /** Write the next window's start sample into the inactive half. */
    method BeginTick(countEnd: Sample, countStart: Sample)
      requires Valid() && phase.Quiet?
      modifies this, buff1, buff2
      ensures Model() == Step(old(Model()), WriteStart(countStart, countEnd))
    {
      if collectingInBuff1 {
        buff2[0] := countStart;
      } else {
        buff1[0] := countStart;
      }
      phase := Started(countEnd);
    }

    method ResetIndex()
      requires phase.Started?
      modifies this
      ensures Model() == Step(old(Model()), ClearIndex)
    {
      if collectingInBuff1 {
        idx2 := 1;
      } else {
        idx1 := 1;
      }
      phase := Cleared(phase.end);
    }

    method FlipActive()
      requires phase.Cleared?
      modifies this
      ensures Model() == Step(old(Model()), Flip)
    {
      collectingInBuff1 := !collectingInBuff1;
      phase := Flipped(phase.end);
    }

    method ReserveEndIndex()
      requires phase.Flipped?
      modifies this
      ensures Model() == Step(old(Model()), ReserveEnd)
    {
      if collectingInBuff1 {
        phase := Reserved(phase.end, idx2);
        idx2 := AsU32(idx2 + 1);
      } else {
        phase := Reserved(phase.end, idx1);
        idx1 := AsU32(idx1 + 1);
      }
    }

    method WriteEndSample()
      requires Valid() && phase.Reserved?
      modifies this, buff1, buff2
      ensures Model() == Step(old(Model()), WriteEnd)
    {
      if collectingInBuff1 {
        if phase.endIdx < buff2.Length {
          buff2[phase.endIdx] := phase.end;
        }
      } else {
        if phase.endIdx < buff1.Length {
          buff1[phase.endIdx] := phase.end;
        }
      }
      phase := Ended(phase.endIdx);
    }

    /** The whole callback with no handler in between; the average is of the retired half. */
    method SwapAndAverage(countEnd: Sample, countStart: Sample) returns (avg: s64)
      requires Valid() && phase.Quiet?
      modifies this, buff1, buff2
      ensures Model() == Step(Closing(old(Model()), countEnd, countStart), Average)
      ensures avg == TickAverage(Closing(old(Model()), countEnd, countStart))
    {
      BeginTick(countEnd, countStart);
      ResetIndex();
      FlipActive();
      ReserveEndIndex();
      WriteEndSample();
      var retired := if collectingInBuff1 then buff2 else buff1;
      avg := PhantomAverage(retired, phase.endIdx);
      phase := Quiet;
    }
  }

  /** The buffers as an uninterrupted tick leaves them when it is about to average. */
  function Closing(b: Buffers, countEnd: Sample, countStart: Sample): (r: Buffers)
    requires b.phase.Quiet?
    ensures r.phase.Ended? && |r.one.entries| == |b.one.entries|
  {
    Step(Step(Step(Step(Step(b, WriteStart(countStart, countEnd)), ClearIndex), Flip), ReserveEnd), WriteEnd)
  }

  /** An uninterrupted tick closes the open window with the end sample and opens the next. */
  lemma ClosingRefines(b: Buffers, w: Windows, countEnd: Sample, countStart: Sample)
    requires Refines(b, w) && b.phase.Quiet?
    ensures var retired := w.open.(end := [countEnd]);
      var opening := Window([countStart], [], []);
      && Refines(Closing(b, countEnd, countStart), Windows(opening, NO_SAMPLES, retired, [countEnd], w.closed))
      && Refines(Step(Closing(b, countEnd, countStart), Average),
                 Windows(opening, NO_SAMPLES, NO_SAMPLES, [], w.closed + [retired]))
  {
    var b1, w1 := Step(b, WriteStart(countStart, countEnd)), AbstractStep(w, WriteStart(countStart, countEnd));
    StepRefines(b, w, WriteStart(countStart, countEnd));
    var b2, w2 := Step(b1, ClearIndex), AbstractStep(w1, ClearIndex);
    StepRefines(b1, w1, ClearIndex);
    var b3, w3 := Step(b2, Flip), AbstractStep(w2, Flip);
    StepRefines(b2, w2, Flip);
    var b4, w4 := Step(b3, ReserveEnd), AbstractStep(w3, ReserveEnd);
    StepRefines(b3, w3, ReserveEnd);
    StepRefines(b4, w4, WriteEnd);
    StepRefines(Step(b4, WriteEnd), AbstractStep(w4, WriteEnd), Average);
  }
}

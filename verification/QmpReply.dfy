/**
 Extracting vCPU threads from a QMP query-cpus-fast reply (extract_vcpu_info in
 register_vm.c): a substring scan, not a JSON parser.
 */
module QmpReply {
  import opened LinkedList
  import opened VmRegistration

  const ENTRY_KEY: string := "{\"thread-id\": "
  const CPU_KEY: string := "\"cpu-index\": "

  predicate OccursAt(s: string, key: string, i: int) {
    0 <= i && i + |key| <= |s| && s[i..i + |key|] == key
  }

  /** strstr: index of the first occurrence from `from` on, -1 if there is none. */
  function Find(s: string, key: string, from: nat): (r: int)
    requires from <= |s|
    ensures r == -1 || from <= r <= |s| - |key|
    decreases |s| - from
  {
    if OccursAt(s, key, from) then from
    else if from == |s| then -1
    else Find(s, key, from + 1)
  }

  /** The scan stops at the least occurrence, and only if there is one. */
  lemma {:induction false} FindIsFirst(s: string, key: string, from: nat)
    requires from <= |s|
    ensures var r := Find(s, key, from);
      && (r == -1 || OccursAt(s, key, r))
      && (forall j :: from <= j && (r == -1 || j < r) ==> !OccursAt(s, key, j))
    decreases |s| - from
  {
    if OccursAt(s, key, from) || from == |s| {
    } else {
      FindIsFirst(s, key, from + 1);
    }
  }

  predicate IsDigit(c: char) {
    '0' <= c <= '9'
  }

  /** The digits at the front of s, continuing from acc. */
  function ScanDigits(s: string, acc: nat): nat {
    if |s| == 0 || !IsDigit(s[0]) then acc else ScanDigits(s[1..], 10 * acc + (s[0] - '0') as nat)
  }

  /** isspace: blank, tab, newline, vertical tab, form feed, carriage return. */
  predicate IsSpace(c: char) {
    c == ' ' || '\t' <= c <= '\r'
  }

  function SkipSpaces(s: string): string {
    if |s| > 0 && IsSpace(s[0]) then SkipSpaces(s[1..]) else s
  }

  /** sscanf("%d"): blanks, a sign, digits; without a digit the variable keeps its -1. */
  function ScanInt(s: string): int {
    var t := SkipSpaces(s);
    if |t| > 0 && IsDigit(t[0]) then ScanDigits(t, 0)
    else if |t| > 1 && t[0] == '+' && IsDigit(t[1]) then ScanDigits(t[1..], 0)
    else if |t| > 1 && t[0] == '-' && IsDigit(t[1]) then 0 - ScanDigits(t[1..], 0)
    else -1
  }

  /** The number behind the first occurrence of a key, -1 if there is none. */
  function IntBehind(text: string, key: string): int {
    var at := Find(text, key, 0);
    if at == -1 then -1 else ScanInt(text[at + |key|..])
  }

  /** What one entry yields, given the text behind its key. */
  function ReadEntry(text: string, cpuKey: string): QmpVcpu {
    QmpVcpu(IntBehind(text, cpuKey), ScanInt(text))
  }

  /** What `read` makes of the text behind each occurrence of the key. */
  function Entries(s: string, key: string, read: string -> QmpVcpu): seq<QmpVcpu>
    requires |key| > 0
    decreases |s|
  {
    var at := Find(s, key, 0);
    if at == -1 then [] else
    var text := s[at + |key|..];
    [read(text)] + Entries(text, key, read)
  }

  function ExtractBy(reply: string, key: string, cpuKey: string): seq<QmpVcpu>
    requires |key| > 0
  {
    Entries(reply, key, text => ReadEntry(text, cpuKey))
  }

  /** The entries found in a reply, in order. */
  function Extract(reply: string): seq<QmpVcpu> {
    ExtractBy(reply, ENTRY_KEY, CPU_KEY)
  }

  function Somes(xs: seq<QmpVcpu>): seq<Option<QmpVcpu>> {
    if |xs| == 0 then [] else Somes(xs[..|xs| - 1]) + [Some(xs[|xs| - 1])]
  }

  lemma SomesAppend(xs: seq<QmpVcpu>, x: QmpVcpu)
    ensures Somes(xs + [x]) == Somes(xs) + [Some(x)]
  {
    assert (xs + [x])[..|xs|] == xs;
  }

  /** A dummy head, then the entries. */
  ghost predicate IsVcpuList(head: Node<QmpVcpu>, nodes: seq<Node<QmpVcpu>>, entries: seq<QmpVcpu>)
    reads nodes
  {
    IsList(head, nodes, [None] + Somes(entries))
  }

  /** push_back behind the dummy head. */
  method AppendEntry(head: Node<QmpVcpu>, vcpu: QmpVcpu, granted: bool,
                     ghost nodes: seq<Node<QmpVcpu>>, ghost found: seq<QmpVcpu>)
    returns (ghost nodes': seq<Node<QmpVcpu>>)
    requires IsVcpuList(head, nodes, found)
    modifies nodes
    ensures IsVcpuList(head, nodes', if granted then found + [vcpu] else found)
    ensures if granted then |nodes'| == |nodes| + 1 && nodes <= nodes' && fresh(nodes'[|nodes|]) else nodes' == nodes
  {
    var h;
    SomesAppend(found, vcpu);
    h, nodes' := PushBack(head, Some(vcpu), granted, nodes, [None] + Somes(found));
    assert [None] + Somes(found) + [Some(vcpu)] == [None] + Somes(found + [vcpu]);
  }

  /** The entry behind the key comes first, then those of the text behind it. */
  lemma EntriesUnfold(s: string, key: string, read: string -> QmpVcpu, at: int)
    requires |key| > 0 && at == Find(s, key, 0) != -1
    ensures |s[at + |key|..]| < |s|
    ensures Entries(s, key, read) == [read(s[at + |key|..])] + Entries(s[at + |key|..], key, read)
  {
  }

  /** What malloc grants one round of the loop: nothing, the vCPU only, or the vCPU and its list node. */
  datatype Grant = NoVcpu | NoNode | Both

  /** The entries that reach the list: a refused node drops one, a refused vCPU ends the scan. */
  ghost function Kept(entries: seq<QmpVcpu>, grants: nat -> Grant, k: nat): seq<QmpVcpu>
    decreases |entries|
  {
    if |entries| == 0 then [] else
    match grants(k)
    case NoVcpu => []
    case NoNode => Kept(entries[1..], grants, k + 1)
    case Both => [entries[0]] + Kept(entries[1..], grants, k + 1)
  }

  /** With every allocation granted, all entries reach it. */
  lemma {:induction false} AllKept(entries: seq<QmpVcpu>, grants: nat -> Grant, k: nat)
    requires forall i :: grants(i) == Both
    ensures Kept(entries, grants, k) == entries
    decreases |entries|
  {
    if |entries| == 0 {
    } else {
      AllKept(entries[1..], grants, k + 1);
    }
  }

  /** The next entry moves from the rest of the reply to those found, if granted. */
  lemma EntryMoves(found: seq<QmpVcpu>, vcpu: QmpVcpu, rest: seq<QmpVcpu>, grants: nat -> Grant, k: nat)
    ensures found + Kept([vcpu] + rest, grants, k)
      == match grants(k)
         case NoVcpu => found
         case NoNode => found + Kept(rest, grants, k + 1)
         case Both => (found + [vcpu]) + Kept(rest, grants, k + 1)
  {
    assert ([vcpu] + rest)[1..] == rest;
  }

  /** The scanning loop of extract_vcpu_info for a given key. */
  method CollectEntries(reply: string, key: string, read: string -> QmpVcpu, grants: nat -> Grant)
    returns (head: Node<QmpVcpu>, ghost nodes: seq<Node<QmpVcpu>>)
    requires |key| > 0
    ensures IsVcpuList(head, nodes, Kept(Entries(reply, key, read), grants, 0)) && fresh(nodes)
  {
    head := new Node<QmpVcpu>(None);
    nodes := [head];
    var str := reply;
    ghost var found: seq<QmpVcpu> := [];
    var k := 0;
    var at := Find(str, key, 0);
    while at != -1
      invariant at == Find(str, key, 0)
      invariant Kept(Entries(reply, key, read), grants, 0) == found + Kept(Entries(str, key, read), grants, k)
      invariant IsVcpuList(head, nodes, found) && fresh(nodes)
      decreases |str|
    {
      EntriesUnfold(str, key, read, at);
      str := str[at + |key|..];
      var vcpu := read(str);
      EntryMoves(found, vcpu, Entries(str, key, read), grants, k);
      if grants(k).NoVcpu? {
        return;
      }
      nodes := AppendEntry(head, vcpu, grants(k).Both?, nodes, found);
      found := if grants(k).Both? then found + [vcpu] else found;
      k := k + 1;
      at := Find(str, key, 0);
    }
    assert found + [] == found;
  }

  /** extract_vcpu_info; without a dummy head there is no list. */
  method ExtractVcpuInfo(reply: string, headGranted: bool, grants: nat -> Grant)
    returns (head: Node?<QmpVcpu>, ghost nodes: seq<Node<QmpVcpu>>)
    ensures head == null <==> !headGranted
    ensures head != null ==> IsVcpuList(head, nodes, Kept(Extract(reply), grants, 0)) && fresh(nodes)
  {
    if !headGranted {
      return null, [];
    }
    head, nodes := CollectEntries(reply, ENTRY_KEY, text => ReadEntry(text, CPU_KEY), grants);
  }

  // ---------------------------------------------------------------- rendered replies

  function DigitChar(d: nat): char
    requires d < 10
  {
    '0' + d as char
  }

  /** Decimal notation. */
  function Digits(n: nat): (r: string)
    ensures |r| > 0 && IsDigit(r[0])
  {
    if n < 10 then [DigitChar(n)] else Digits(n / 10) + [DigitChar(n % 10)]
  }

  /** Scanning a number's notation restores the number, whatever follows. */
  lemma {:induction false} ScanRendered(n: nat, rest: string)
    ensures ScanDigits(Digits(n) + rest, 0) == ScanDigits(rest, n)
  {
    if n < 10 {
      assert (Digits(n) + rest)[1..] == rest;
    } else {
      var last := [DigitChar(n % 10)];
      assert Digits(n) + rest == Digits(n / 10) + (last + rest);
      ScanRendered(n / 10, last + rest);
      assert (last + rest)[1..] == rest;
    }
  }

  ghost predicate NoDigitFirst(s: string) {
    |s| == 0 || !IsDigit(s[0])
  }

  lemma {:induction false} SkipBlanks(blanks: string, rest: string)
    requires forall i :: 0 <= i < |blanks| ==> IsSpace(blanks[i])
    requires |rest| > 0 ==> !IsSpace(rest[0])
    ensures SkipSpaces(blanks + rest) == rest
  {
    if |blanks| == 0 {
      assert blanks + rest == rest;
    } else {
      assert (blanks + rest)[1..] == blanks[1..] + rest;
      SkipBlanks(blanks[1..], rest);
    }
  }

  /** Whatever blanks precede it, a number with or without sign is read as that number. */
  lemma ScanIntReads(blanks: string, sign: string, n: nat, rest: string)
    requires forall i :: 0 <= i < |blanks| ==> IsSpace(blanks[i])
    requires (sign == "" || sign == "+" || sign == "-") && NoDigitFirst(rest)
    ensures ScanInt(blanks + (sign + (Digits(n) + rest))) == if sign == "-" then 0 - n else n
  {
    var number := Digits(n) + rest;
    assert number[0] == Digits(n)[0];
    SkipBlanks(blanks, sign + number);
    ScanRendered(n, rest);
    if sign == "" {
      assert sign + number == number;
    } else {
      assert (sign + number)[0] == sign[0] && (sign + number)[1..] == number;
    }
  }

  /** Text that does not go on with a number leaves the variable at -1. */
  lemma ScanIntKeeps(blanks: string, rest: string)
    requires forall i :: 0 <= i < |blanks| ==> IsSpace(blanks[i])
    requires |rest| > 0 ==> !IsSpace(rest[0]) && !IsDigit(rest[0])
    requires |rest| > 1 && (rest[0] == '+' || rest[0] == '-') ==> !IsDigit(rest[1])
    ensures ScanInt(blanks + rest) == -1
  {
    SkipBlanks(blanks, rest);
  }

  /** Without the key there is no number behind it. */
  lemma MissingKeyKeeps(text: string, key: string)
    requires forall i :: !OccursAt(text, key, i)
    ensures IntBehind(text, key) == -1
  {
    FindIsFirst(text, key, 0);
  }

  lemma ScanIntRendered(n: nat, rest: string)
    requires NoDigitFirst(rest)
    ensures ScanInt(Digits(n) + rest) == n
  {
    ScanRendered(n, rest);
    assert (Digits(n) + rest)[0] == Digits(n)[0];
  }

  /** One CPU object from its thread-id key on: number, other fields, cpu-index key, number, other fields. */
  datatype CpuObject = CpuObject(threadId: nat, middle: string, cpuKey: string, cpuIndex: nat, tail: string)

  ghost function Body(o: CpuObject): string {
    Digits(o.threadId) + o.middle + o.cpuKey + Digits(o.cpuIndex) + o.tail
  }

  ghost predicate Absent(s: string, key: string) {
    forall i :: !OccursAt(s, key, i)
  }

  /** No other field holds either key, and the numbers end where they end. */
  ghost predicate WellFormed(o: CpuObject, key: string, cpuKey: string) {
    && o.cpuKey == cpuKey
    && Absent(Body(o), key)
    && Absent(Digits(o.threadId) + o.middle, cpuKey)
    && NoDigitFirst(o.middle) && NoDigitFirst(o.tail)
  }

  /** Objects one after the other, each opened by the key. */
  ghost function Rendered(objects: seq<CpuObject>, key: string): string {
    if |objects| == 0 then "" else key + Body(objects[0]) + Rendered(objects[1..], key)
  }

  ghost function Values(objects: seq<CpuObject>): seq<QmpVcpu> {
    if |objects| == 0 then []
    else [QmpVcpu(objects[0].cpuIndex, objects[0].threadId)] + Values(objects[1..])
  }

  /** A key that starts with no digit and whose last character occurs nowhere else in it. */
  ghost predicate IsKey(key: string) {
    |key| > 0 && !IsDigit(key[0]) && forall i :: 0 <= i < |key| - 1 ==> key[i] != key[|key| - 1]
  }

  lemma KeysAreKeys()
    ensures IsKey(ENTRY_KEY) && IsKey(CPU_KEY)
  {
  }

  /** Such a key cannot straddle the boundary in front of another copy of itself. */
  lemma FoundBehindFiller(filler: string, key: string, rest: string)
    requires IsKey(key) && Absent(filler, key)
    ensures Find(filler + key + rest, key, 0) == |filler|
    ensures (filler + key + rest)[|filler| + |key|..] == rest
  {
    var s := filler + key + rest;
    FindIsFirst(s, key, 0);
    assert OccursAt(s, key, |filler|);
    forall j | 0 <= j < |filler|
      ensures !OccursAt(s, key, j)
    {
      if j + |key| <= |filler| {
        assert s[j..j + |key|] == filler[j..j + |key|];
        assert !OccursAt(filler, key, j);
      } else if j + |key| <= |s| {
        assert s[j..j + |key|][|key| - 1] == key[j + |key| - |filler| - 1];
      }
    }
  }

  lemma IntBehindKey(front: string, key: string, n: nat, rest: string)
    requires IsKey(key) && Absent(front, key) && NoDigitFirst(rest)
    ensures IntBehind(front + key + (Digits(n) + rest), key) == n
  {
    FoundBehindFiller(front, key, Digits(n) + rest);
    ScanIntRendered(n, rest);
  }

  lemma Regroup(a: string, b: string, c: string, d: string, e: string, r: string)
    ensures a + b + c + d + e + r == (a + b) + c + (d + (e + r))
    ensures a + b + c + d + e + r == a + (b + c + (d + (e + r)))
  {
  }

  lemma FirstKept(middle: string, key: string, rest: string)
    requires NoDigitFirst(middle) && IsKey(key)
    ensures NoDigitFirst(middle + key + rest)
  {
  }

  lemma EntryRead(o: CpuObject, rest: string, cpuKey: string)
    requires IsKey(cpuKey) && NoDigitFirst(rest) && NoDigitFirst(o.middle) && NoDigitFirst(o.tail)
    requires o.cpuKey == cpuKey && Absent(Digits(o.threadId) + o.middle, cpuKey)
    ensures ReadEntry(Body(o) + rest, cpuKey) == QmpVcpu(o.cpuIndex, o.threadId)
  {
    var front, back := Digits(o.threadId) + o.middle, Digits(o.cpuIndex) + (o.tail + rest);
    Regroup(Digits(o.threadId), o.middle, cpuKey, Digits(o.cpuIndex), o.tail, rest);
    IntBehindKey(front, cpuKey, o.cpuIndex, o.tail + rest);
    FirstKept(o.middle, cpuKey, back);
    ScanIntRendered(o.threadId, o.middle + cpuKey + back);
  }

  lemma RenderedStart(objects: seq<CpuObject>, key: string)
    requires IsKey(key)
    ensures NoDigitFirst(Rendered(objects, key))
  {
    if |objects| > 0 {
      assert Rendered(objects, key)[0] == key[0];
    }
  }

  lemma EntriesStep(preamble: string, key: string, read: string -> QmpVcpu, text: string)
    requires IsKey(key) && Absent(preamble, key)
    ensures Entries(preamble + key + text, key, read) == [read(text)] + Entries(text, key, read)
  {
    FoundBehindFiller(preamble, key, text);
  }

  lemma NoEntry(preamble: string, key: string, read: string -> QmpVcpu)
    requires IsKey(key) && Absent(preamble, key)
    ensures Entries(preamble, key, read) == []
  {
    FindIsFirst(preamble, key, 0);
  }

  lemma {:induction false} EntriesRendered(
    preamble: string, objects: seq<CpuObject>, key: string, cpuKey: string, read: string -> QmpVcpu)
    requires IsKey(key) && IsKey(cpuKey) && Absent(preamble, key)
    requires forall text :: read(text) == ReadEntry(text, cpuKey)
    requires forall i :: 0 <= i < |objects| ==> WellFormed(objects[i], key, cpuKey)
    ensures Entries(preamble + Rendered(objects, key), key, read) == Values(objects)
    decreases |objects|
  {
    if |objects| == 0 {
      assert preamble + Rendered(objects, key) == preamble;
      NoEntry(preamble, key, read);
    } else {
      var o, rest := objects[0], Rendered(objects[1..], key);
      assert preamble + (key + Body(o) + rest) == preamble + key + (Body(o) + rest);
      EntriesStep(preamble, key, read, Body(o) + rest);
      RenderedStart(objects[1..], key);
      EntryRead(o, rest, cpuKey);
      EntriesRendered(Body(o), objects[1..], key, cpuKey, read);
    }
  }

  ghost predicate AllWellFormed(objects: seq<CpuObject>, key: string, cpuKey: string) {
    forall i :: 0 <= i < |objects| ==> WellFormed(objects[i], key, cpuKey)
  }

  lemma ExtractByRendered(preamble: string, objects: seq<CpuObject>, key: string, cpuKey: string)
    requires IsKey(key) && IsKey(cpuKey) && Absent(preamble, key)
    requires AllWellFormed(objects, key, cpuKey)
    ensures ExtractBy(preamble + Rendered(objects, key), key, cpuKey) == Values(objects)
  {
    EntriesRendered(preamble, objects, key, cpuKey, text => ReadEntry(text, cpuKey));
  }

  /**
   For every list of CPU objects with thread-id first and both keys nowhere else, behind any
   preamble without the entry key, the scan returns exactly the listed pairs in order.
   */
  lemma ExtractRendered(preamble: string, objects: seq<CpuObject>)
    requires Absent(preamble, ENTRY_KEY)
    requires AllWellFormed(objects, ENTRY_KEY, CPU_KEY)
    ensures Extract(preamble + Rendered(objects, ENTRY_KEY)) == Values(objects)
  {
    KeysAreKeys();
    ExtractByRendered(preamble, objects, ENTRY_KEY, CPU_KEY);
  }
}

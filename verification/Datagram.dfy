/** Packing of several packets into one datagram, and the two walks that take it apart again: the
    length check of Net_recv and the copying loop of Prot_handle_bcast. Byte order is that of a
    little-endian host talking to its like. */
module Datagram {
  import opened Outcomes

  type Byte = x: int | 0 <= x < 256

  const MAX_PACKET_SIZE := 1472
  const HEADER_SIZE := 36
  const ARCH_SCATTER_SIZE := 64

  /** A packet_header and a packet_body. */
  datatype Packet = Packet(header: seq<Byte>, body: seq<Byte>)

  /** The field data_len, a signed number of two bytes at offset 30. */
  function DataLen(header: seq<Byte>): (n: int)
    requires |header| == HEADER_SIZE
    ensures -0x8000 <= n < 0x8000
  {
    var n := (header[30] as int) + 256 * (header[31] as int);
    if n < 0x8000 then n else n - 0x1_0000
  }

  predicate WellFormed(p: Packet) {
    |p.header| == HEADER_SIZE && DataLen(p.header) == |p.body| <= MAX_PACKET_SIZE - HEADER_SIZE
  }

  function Encode(p: Packet): seq<Byte> {
    p.header + p.body
  }

  /** The bytes that bring n up to a multiple of 4. */
  function Pad(n: nat): (r: nat)
    ensures r < 4 && (n + r) % 4 == 0
  {
    (4 - n % 4) % 4
  }

  const PADDING: seq<Byte> := [112, 97, 100, 100]

  // ----- sending

  datatype Queue = Queue(bytes: seq<Byte>, elements: nat)

  /** What is on its way after a packet has been queued: datagrams flushed, and the queue. */
  datatype Sending = Sending(sent: seq<seq<Byte>>, queue: Queue)

  const NOTHING := Queue([], 0)

  function Flush(s: Sending): Sending {
    if s.queue.bytes == [] then s else Sending(s.sent + [s.queue.bytes], NOTHING)
  }

  predicate MustFlush(q: Queue, p: Packet) {
    var align := Pad(|q.bytes|);
    || |q.bytes| + |Encode(p)| + align > MAX_PACKET_SIZE
    || q.elements + 2 + (if align > 0 then 1 else 0) > ARCH_SCATTER_SIZE
  }

  /** Net_queue_bcast. */
  function Enqueue(s: Sending, p: Packet): Sending {
    if MustFlush(s.queue, p) then
      Sending(Flush(s).sent, Queue(Flush(s).queue.bytes + Encode(p), Flush(s).queue.elements + 2))
    else
      var align := Pad(|s.queue.bytes|);
      Sending(s.sent, Queue(s.queue.bytes + PADDING[..align] + Encode(p),
                            s.queue.elements + 2 + (if align > 0 then 1 else 0)))
  }

  function EnqueueAll(s: Sending, ps: seq<Packet>): Sending
    decreases |ps|
  {
    if ps == [] then s else EnqueueAll(Enqueue(s, ps[0]), ps[1..])
  }

  /** The datagrams for ps, Net_flush_bcast included. */
  function Datagrams(ps: seq<Packet>): seq<seq<Byte>> {
    Flush(EnqueueAll(Sending([], NOTHING), ps)).sent
  }

  // ----- one datagram

  /** The packets of a group, padded between but not after. */
  function Join(g: seq<Packet>): seq<Byte> {
    if g == [] then []
    else
      var b := Join(g[..|g| - 1]);
      b + PADDING[..Pad(|b|)] + Encode(g[|g| - 1])
  }

  function Concat(groups: seq<seq<Packet>>): seq<Packet> {
    if groups == [] then [] else Concat(groups[..|groups| - 1]) + groups[|groups| - 1]
  }

  /** The datagrams are the groups, each not too long; the packets in order are ps. */
  ghost predicate Grouped(groups: seq<seq<Packet>>, sent: seq<seq<Byte>>, ps: seq<Packet>) {
    && |sent| == |groups| && Concat(groups) == ps
    && forall i :: 0 <= i < |groups| ==> GroupOk(groups[i], sent[i])
  }

  ghost predicate GroupOk(g: seq<Packet>, d: seq<Byte>) {
    g != [] && d == Join(g) && |d| <= MAX_PACKET_SIZE && forall j :: 0 <= j < |g| ==> WellFormed(g[j])
  }

  /** Some groups have been sent and g is waiting. */
  ghost predicate Underway(s: Sending, groups: seq<seq<Packet>>, g: seq<Packet>, ps: seq<Packet>) {
    && |s.sent| == |groups| && Concat(groups) + g == ps
    && (forall i :: 0 <= i < |groups| ==> GroupOk(groups[i], s.sent[i]))
    && s.queue.bytes == Join(g) && (g != [] ==> GroupOk(g, s.queue.bytes))
    && (g == [] ==> s.queue.elements == 0)
  }

  lemma JoinOne(g: seq<Packet>, p: Packet)
    ensures Join(g + [p]) == Join(g) + PADDING[..Pad(|Join(g)|)] + Encode(p)
  {
    assert (g + [p])[..|g|] == g;
  }

  lemma ConcatOne(groups: seq<seq<Packet>>, g: seq<Packet>)
    ensures Concat(groups + [g]) == Concat(groups) + g
  {
    assert (groups + [g])[..|groups|] == groups;
  }

  lemma JoinNotEmpty(g: seq<Packet>, d: seq<Byte>)
    requires g != [] ==> GroupOk(g, d)
    ensures g != [] ==> |d| >= HEADER_SIZE
  {
    if g != [] {
      assert WellFormed(g[|g| - 1]);
    }
  }

  lemma FirstJoin(p: Packet)
    ensures Join([p]) == Encode(p)
  {
    assert [p][..0] == [];
    assert PADDING[..Pad(0)] == [];
    assert [] + [] + Encode(p) == Encode(p);
  }

  // ----- no datagram is sent before it is full

  /** What the packets of a group take in the scatter array: header and body each, and the padding
      between two of them where there is any. */
  function Elements(g: seq<Packet>): nat {
    if g == [] then 0
    else
      var n := |g| - 1;
      Elements(g[..n]) + (if Pad(|Join(g[..n])|) > 0 then 3 else 2)
  }

  /** p would have made the group too long, or would have taken too many elements. */
  ghost predicate NoRoomFor(g: seq<Packet>, p: Packet) {
    |Join(g + [p])| > MAX_PACKET_SIZE || Elements(g + [p]) > ARCH_SCATTER_SIZE
  }

  ghost predicate NoRoomForNext(groups: seq<seq<Packet>>, i: nat)
    requires i + 1 < |groups|
  {
    groups[i + 1] != [] && NoRoomFor(groups[i], groups[i + 1][0])
  }

  /** Every group but the last had no room for the first packet of the next. */
  ghost predicate Tight(groups: seq<seq<Packet>>) {
    forall i :: 0 <= i < |groups| - 1 ==> NoRoomForNext(groups, i)
  }

  ghost predicate TightSoFar(s: Sending, groups: seq<seq<Packet>>, g: seq<Packet>) {
    s.queue.elements == Elements(g) && if g == [] then groups == [] else Tight(groups + [g])
  }

  lemma ElementsOne(g: seq<Packet>, p: Packet)
    ensures Elements(g + [p]) == Elements(g) + (if Pad(|Join(g)|) > 0 then 3 else 2)
  {
    assert (g + [p])[..|g|] == g;
  }

  lemma MustFlushMeans(s: Sending, groups: seq<seq<Packet>>, g: seq<Packet>, ps: seq<Packet>, p: Packet)
    requires Underway(s, groups, g, ps) && s.queue.elements == Elements(g)
    ensures MustFlush(s.queue, p) <==> NoRoomFor(g, p)
  {
    JoinOne(g, p);
    ElementsOne(g, p);
  }

  lemma TightAppend(groups: seq<seq<Packet>>, g: seq<Packet>, p: Packet)
    requires g != [] && Tight(groups + [g])
    ensures Tight(groups + [g + [p]])
    ensures NoRoomFor(g, p) ==> Tight(groups + [g] + [[p]])
  {
    var before, longer, more := groups + [g], groups + [g + [p]], groups + [g] + [[p]];
    hide NoRoomFor;
    forall i | 0 <= i < |longer| - 1
      ensures NoRoomForNext(longer, i)
    {
      assert NoRoomForNext(before, i);
      assert longer[i] == before[i] && longer[i + 1][0] == before[i + 1][0];
    }
    if NoRoomFor(g, p) {
      forall i | 0 <= i < |more| - 1
        ensures NoRoomForNext(more, i)
      {
        if i < |groups| {
          assert NoRoomForNext(before, i);
          assert more[i] == before[i] && more[i + 1] == before[i + 1];
        }
      }
    }
  }

  /** The group that is waiting is sent because it has no room for p. */
  lemma FlushTight(s: Sending, groups: seq<seq<Packet>>, g: seq<Packet>, ps: seq<Packet>, p: Packet)
    requires Underway(s, groups, g, ps) && TightSoFar(s, groups, g) && WellFormed(p) && g != [] && NoRoomFor(g, p)
    requires MustFlush(s.queue, p)
    ensures Underway(Enqueue(s, p), groups + [g], [p], ps + [p]) && TightSoFar(Enqueue(s, p), groups + [g], [p])
  {
    JoinNotEmpty(g, s.queue.bytes);
    ConcatOne(groups, g);
    FirstJoin(p);
    ElementsOne([], p);
    assert [] + [p] == [p] && [] + Encode(p) == Encode(p);
    TightAppend(groups, g, p);
    hide Join, Elements, NoRoomFor, Tight, MustFlush;
  }

  lemma AppendTight(s: Sending, groups: seq<seq<Packet>>, g: seq<Packet>, ps: seq<Packet>, p: Packet)
    requires Underway(s, groups, g, ps) && TightSoFar(s, groups, g) && WellFormed(p) && !MustFlush(s.queue, p)
    ensures Underway(Enqueue(s, p), groups, g + [p], ps + [p]) && TightSoFar(Enqueue(s, p), groups, g + [p])
  {
    ElementsOne(g, p);
    JoinOne(g, p);
    assert Concat(groups) + (g + [p]) == Concat(groups) + g + [p];
    if g == [] {
      assert |groups + [g + [p]]| == 1;
    } else {
      TightAppend(groups, g, p);
      hide Tight;
    }
    hide Join, Elements, NoRoomFor;
  }

  /** The packet goes into the group that is waiting, or that group is sent because it has no room. */
  lemma EnqueueTight(s: Sending, groups: seq<seq<Packet>>, g: seq<Packet>, ps: seq<Packet>, p: Packet)
    returns (groups': seq<seq<Packet>>, g': seq<Packet>)
    requires Underway(s, groups, g, ps) && TightSoFar(s, groups, g) && WellFormed(p)
    ensures Underway(Enqueue(s, p), groups', g', ps + [p]) && TightSoFar(Enqueue(s, p), groups', g')
  {
    if MustFlush(s.queue, p) {
      MustFlushMeans(s, groups, g, ps, p);
      hide Underway, Enqueue, MustFlush, WellFormed, NoRoomFor, Tight;
      AloneFits(g, p);
      FlushTight(s, groups, g, ps, p);
      groups', g' := groups + [g], [p];
    } else {
      hide Underway, TightSoFar, Enqueue, MustFlush, WellFormed;
      AppendTight(s, groups, g, ps, p);
      groups', g' := groups, g + [p];
    }
  }

  /** A packet on its own always fits. */
  lemma AloneFits(g: seq<Packet>, p: Packet)
    requires NoRoomFor(g, p) && WellFormed(p)
    ensures g != []
  {
    assert [] + [p] == [p];
    FirstJoin(p);
    ElementsOne([], p);
  }

  lemma {:induction false} EnqueueAllTight(s: Sending, groups: seq<seq<Packet>>, g: seq<Packet>, before: seq<Packet>, ps: seq<Packet>)
    returns (groups': seq<seq<Packet>>, g': seq<Packet>)
    requires Underway(s, groups, g, before) && TightSoFar(s, groups, g) && forall i :: 0 <= i < |ps| ==> WellFormed(ps[i])
    ensures Underway(EnqueueAll(s, ps), groups', g', before + ps) && TightSoFar(EnqueueAll(s, ps), groups', g')
    decreases |ps|
  {
    hide Underway, TightSoFar, Enqueue, WellFormed;
    if ps == [] {
      groups', g' := groups, g;
      assert before + [] == before;
    } else {
      groups', g' := EnqueueTight(s, groups, g, before, ps[0]);
      groups', g' := EnqueueAllTight(Enqueue(s, ps[0]), groups', g', before + [ps[0]], ps[1..]);
      assert before + [ps[0]] + ps[1..] == before + ps;
    }
  }

  /** Every packet goes into exactly one datagram, in order; no datagram is too long, and none is sent
      while the next packet would still have gone into it. */
  lemma PackedInGroups(ps: seq<Packet>) returns (groups: seq<seq<Packet>>)
    requires forall i :: 0 <= i < |ps| ==> WellFormed(ps[i])
    ensures Grouped(groups, Datagrams(ps), ps) && Tight(groups)
  {
    var start := Sending([], NOTHING);
    assert Underway(start, [], [], []) && TightSoFar(start, [], []);
    var g;
    groups, g := EnqueueAllTight(start, [], [], [], ps);
    assert [] + ps == ps;
    var s := EnqueueAll(start, ps);
    hide WellFormed, Enqueue, EnqueueAll, Join, NoRoomFor;
    if g != [] {
      JoinNotEmpty(g, s.queue.bytes);
      ConcatOne(groups, g);
      groups := groups + [g];
    } else {
      assert Concat(groups) + [] == Concat(groups);
    }
  }

  // ----- receiving

  /** The length check of Net_recv after some iterations: it has come to the end or beyond, it has
      left what was received, or it goes on at an offset, which may also lie further back. */
  datatype Walked = Done(processed: int) | Lost | Going(processed: int)

  /** Where the packet that starts at offset p ends, padding included. */
  function Beyond(d: seq<Byte>, p: nat): int
    requires p + HEADER_SIZE <= |d|
  {
    var next := p + HEADER_SIZE + DataLen(d[p..p + HEADER_SIZE]);
    if 0 <= next < |d| then next + Pad(next) else next
  }

  /** n iterations of the loop from offset p on. Headers after the first lie behind the first. */
  function WalkFrom(d: seq<Byte>, p: int, n: nat): Walked
    decreases n
  {
    if p >= |d| then Done(p)
    else if n == 0 then Going(p)
    else if p < HEADER_SIZE || p + HEADER_SIZE > |d| then Lost
    else WalkFrom(d, Beyond(d, p), n - 1)
  }

  /** The length check with n iterations of its loop. */
  function Walk(d: seq<Byte>, n: nat): Walked
    requires |d| >= HEADER_SIZE
  {
    WalkFrom(d, Beyond(d, 0), n)
  }

  /** The check ends with exactly what was received. A walk that ends takes at most |d| iterations. */
  predicate Accepts(d: seq<Byte>) {
    |d| >= HEADER_SIZE && Walk(d, |d|) == Done(|d|)
  }

  // ----- when the length check ends

  lemma {:induction false} WalkOn(d: seq<Byte>, p: int, i: nat, k: nat)
    ensures WalkFrom(d, p, i + k) == (if WalkFrom(d, p, i).Going? then WalkFrom(d, WalkFrom(d, p, i).processed, k) else WalkFrom(d, p, i))
    decreases i
  {
    if p < |d| && i > 0 && HEADER_SIZE <= p && p + HEADER_SIZE <= |d| {
      WalkOn(d, Beyond(d, p), i - 1, k);
    }
  }

  /** The offsets at which headers are read lie within the datagram. */
  lemma OffsetInRange(d: seq<Byte>, p: int, i: nat)
    requires WalkFrom(d, p, i + 1).Going?
    ensures WalkFrom(d, p, i).Going? && HEADER_SIZE <= WalkFrom(d, p, i).processed < |d|
  {
    WalkOn(d, p, i, 1);
  }

  /** Some offset comes twice in the first |d| iterations. */
  ghost predicate Repeats(d: seq<Byte>)
    requires |d| >= HEADER_SIZE
  {
    exists i, j :: 0 <= i < j <= |d| && Walk(d, i).Going? && Walk(d, i) == Walk(d, j)
  }

  /** From a repeated offset on there is no end. */
  lemma {:induction false} NoEnd(d: seq<Byte>, p: int, i: nat, j: nat, n: nat)
    requires i < j && WalkFrom(d, p, i).Going? && WalkFrom(d, p, i) == WalkFrom(d, p, j)
    ensures WalkFrom(d, p, n).Going?
    decreases n
  {
    if n <= j {
      WalkOn(d, p, n, j - n);
    } else {
      NoEnd(d, p, i, j, n - (j - i));
      WalkOn(d, p, j, n - j);
      WalkOn(d, p, i, n - j);
      assert i + (n - j) == n - (j - i);
    }
  }

  /** The offsets of the first n headers. */
  function Offsets(d: seq<Byte>, p: int, n: nat): set<int> {
    if n == 0 then {} else Offsets(d, p, n - 1) + (match WalkFrom(d, p, n - 1) case Going(q) => {q} case _ => {})
  }

  ghost predicate VisitedBefore(d: seq<Byte>, p: int, n: nat, q: int) {
    exists i :: 0 <= i < n && WalkFrom(d, p, i) == Going(q)
  }

  lemma {:induction false} OffsetsCount(d: seq<Byte>, p: int, n: nat)
    requires WalkFrom(d, p, n).Going?
    requires forall i, j :: 0 <= i < j < n && WalkFrom(d, p, i).Going? && WalkFrom(d, p, j).Going? ==> WalkFrom(d, p, i) != WalkFrom(d, p, j)
    ensures |Offsets(d, p, n)| == n && forall q :: q in Offsets(d, p, n) ==> HEADER_SIZE <= q < |d|
    ensures forall q :: q in Offsets(d, p, n) ==> VisitedBefore(d, p, n, q)
  {
    if n > 0 {
      OffsetInRange(d, p, n - 1);
      OffsetsCount(d, p, n - 1);
      var q := WalkFrom(d, p, n - 1).processed;
      assert WalkFrom(d, p, n - 1) == Going(q) && VisitedBefore(d, p, n, q);
      forall x | x in Offsets(d, p, n - 1)
        ensures x != q && VisitedBefore(d, p, n, x)
      {
        assert VisitedBefore(d, p, n - 1, x);
        var i :| 0 <= i < n - 1 && WalkFrom(d, p, i) == Going(x);
        assert WalkFrom(d, p, i) == Going(x);
      }
    }
  }

  lemma {:induction false} AtMost(s: set<int>, low: int, n: nat)
    requires forall q :: q in s ==> low <= q < low + n
    ensures |s| <= n
  {
    if n == 0 {
      assert forall q :: q !in s;
      assert s == {};
    } else {
      var k := low + n - 1;
      AtMost(s - {k}, low, n - 1);
      assert s <= s - {k} + {k};
    }
  }

  /** The length check ends if and only if no offset comes twice; it has then ended after at most
      |d| iterations. */
  lemma WalkEndsExactly(d: seq<Byte>)
    requires |d| >= HEADER_SIZE
    ensures !Repeats(d) <==> !Walk(d, |d|).Going?
    ensures !Repeats(d) <==> exists n: nat :: !Walk(d, n).Going?
  {
    var p := Beyond(d, 0);
    if Repeats(d) {
      var i, j :| 0 <= i < j <= |d| && Walk(d, i).Going? && Walk(d, i) == Walk(d, j);
      forall n: nat
        ensures Walk(d, n).Going?
      {
        NoEnd(d, p, i, j, n);
      }
    } else {
      if Walk(d, |d|).Going? {
        RoomForOffsets(d);
      }
      assert !Walk(d, |d|).Going?;
    }
  }

  lemma RoomForOffsets(d: seq<Byte>)
    requires |d| >= HEADER_SIZE && Walk(d, |d|).Going?
    ensures Repeats(d)
  {
    var p := Beyond(d, 0);
    if !Repeats(d) {
      forall i, j | 0 <= i < j < |d| && WalkFrom(d, p, i).Going? && WalkFrom(d, p, j).Going?
        ensures WalkFrom(d, p, i) != WalkFrom(d, p, j)
      {
        assert Walk(d, i).Going? && Walk(d, i) == WalkFrom(d, p, i) && Walk(d, j) == WalkFrom(d, p, j);
      }
      OffsetsCount(d, p, |d|);
      AtMost(Offsets(d, p, |d|), HEADER_SIZE, |d| - HEADER_SIZE);
    }
  }

  /** For example: a later header whose data_len is -36 is read for ever. */
  lemma {:induction false} NoProgress(d: seq<Byte>, p: nat, n: nat)
    requires HEADER_SIZE <= p && p + HEADER_SIZE <= |d| && p % 4 == 0
    requires DataLen(d[p..p + HEADER_SIZE]) == -HEADER_SIZE
    ensures WalkFrom(d, p, n) == Going(p)
  {
    if n > 0 {
      NoProgress(d, p, n - 1);
    }
  }

  datatype Taken = Taken(packet: Packet, end: nat)

  /** The packet at offset `at`, if the datagram holds all of it. (A negative length is no length
      that memcpy could be given.) */
  function PacketFrom(d: seq<Byte>, at: nat): (r: Option<Taken>)
    ensures r.Some? ==> at + HEADER_SIZE <= r.value.end
  {
    if at + HEADER_SIZE > |d| then None
    else
      var end := at + HEADER_SIZE + DataLen(d[at..at + HEADER_SIZE]);
      if end > |d| || end < at + HEADER_SIZE then None else Some(Taken(Packet(d[at..at + HEADER_SIZE], d[at + HEADER_SIZE..end]), end))
  }

  /** Where the copying loop goes on: it counts from the end of the first header, and so does the
      padding. */
  function NextFrom(end: nat): (r: nat)
    requires HEADER_SIZE <= end
    ensures end <= r
  {
    end + Pad(end - HEADER_SIZE)
  }

  /** The copying loop of Prot_handle_bcast from offset `at` on. */
  function Unpack(d: seq<Byte>, at: nat): Option<seq<Packet>>
    decreases |d| - at
  {
    if |d| <= at then Some([])
    else
      match PacketFrom(d, at)
      case None => None
      case Some(t) =>
        match Unpack(d, NextFrom(t.end))
        case None => None
        case Some(ps) => Some([t.packet] + ps)
  }

  // ----- taking a group apart

  /** Where packet k of a group starts. */
  function Start(g: seq<Packet>, k: nat): nat
    requires k <= |g|
  {
    |Join(g[..k])| + Pad(|Join(g[..k])|)
  }

  lemma {:induction false} JoinPrefix(g: seq<Packet>, k: nat)
    requires k <= |g|
    ensures Join(g[..k]) <= Join(g)
    decreases |g| - k
  {
    if k == |g| {
      assert g[..k] == g;
    } else {
      JoinPrefix(g, k + 1);
      assert g[..k + 1][..k] == g[..k];
    }
  }

  /** Packet k lies at its start, whole. */
  lemma PacketAt(g: seq<Packet>, k: nat)
    requires k < |g| && forall j :: 0 <= j < |g| ==> WellFormed(g[j])
    ensures
      var d, at, end := Join(g), Start(g, k), |Join(g[..k + 1])|;
      && end == at + HEADER_SIZE + |g[k].body| <= |d|
      && d[at..at + HEADER_SIZE] == g[k].header
      && d[at + HEADER_SIZE..end] == g[k].body
  {
    var part := g[..k + 1];
    assert part[..k] == g[..k] && part[k] == g[k];
    JoinPrefix(g, k + 1);
    var b := Join(g[..k]) + PADDING[..Pad(|Join(g[..k])|)];
    var d, at := Join(g), Start(g, k);
    assert |b| == at;
    assert Join(part) == b + Encode(g[k]);
    assert WellFormed(g[k]);
    assert d[..|Join(part)|] == Join(part);
    Slices(d, b, g[k].header, g[k].body, d[|Join(part)|..]);
  }

  lemma Slices(d: seq<Byte>, b: seq<Byte>, x: seq<Byte>, y: seq<Byte>, rest: seq<Byte>)
    requires d == b + (x + y) + rest
    ensures d[|b|..|b| + |x|] == x && d[|b| + |x|..|b| + |x| + |y|] == y
  {
  }

  /** A header is a multiple of four bytes long, so padding may be counted from either end of it. */
  lemma PadShift(n: nat)
    requires n >= HEADER_SIZE
    ensures Pad(n) == Pad(n - HEADER_SIZE)
  {
    assert n % 4 == (n - HEADER_SIZE) % 4;
  }

  lemma StartAligned(g: seq<Packet>, k: nat)
    requires k < |g| && forall j :: 0 <= j < |g| ==> WellFormed(g[j])
    ensures
      var end := |Join(g[..k + 1])|;
      && end >= HEADER_SIZE
      && Start(g, k + 1) == end + Pad(end) == NextFrom(end)
      && (k + 1 == |g| <==> end == |Join(g)|)
      && (k + 1 < |g| ==> Start(g, k + 1) < |Join(g)|)
  {
    hide Join, Pad, WellFormed;
    PacketAt(g, k);
    var end := |Join(g[..k + 1])|;
    PadShift(end);
    if k + 1 < |g| {
      PacketAt(g, k + 1);
    } else {
      assert g[..k + 1] == g;
    }
  }

  lemma TakenAt(g: seq<Packet>, k: nat)
    requires k < |g| && forall j :: 0 <= j < |g| ==> WellFormed(g[j])
    ensures PacketFrom(Join(g), Start(g, k)) == Some(Taken(g[k], |Join(g[..k + 1])|))
    ensures Start(g, k) < |Join(g)|
  {
    hide Join, Start, Pad;
    PacketAt(g, k);
    assert WellFormed(g[k]);
    assert g[k] == Packet(g[k].header, g[k].body);
  }

  /** From the start of a packet, one iteration for each packet. */
  lemma {:induction false} WalkAccepts(g: seq<Packet>, k: nat)
    requires k < |g| && forall j :: 0 <= j < |g| ==> WellFormed(g[j])
    ensures Start(g, k) + HEADER_SIZE <= |Join(g)|
    ensures WalkFrom(Join(g), Beyond(Join(g), Start(g, k)), |g| - 1 - k) == Done(|Join(g)|)
    decreases |g| - k
  {
    hide Join, Pad, WellFormed, Start;
    PacketAt(g, k);
    StartAligned(g, k);
    assert DataLen(g[k].header) == |g[k].body| by { LenIs(g[k]); }
    if k + 1 < |g| {
      WalkAccepts(g, k + 1);
      StartBehind(g, k);
    }
  }

  lemma StartBehind(g: seq<Packet>, k: nat)
    requires k + 1 < |g| && forall j :: 0 <= j < |g| ==> WellFormed(g[j])
    ensures HEADER_SIZE <= Start(g, k + 1)
  {
    hide Join, Pad, WellFormed;
    StartAligned(g, k);
  }

  /** A walk that has ended does not change any more. */
  lemma WalkStays(d: seq<Byte>, p: int, n: nat, m: nat)
    requires n <= m && !WalkFrom(d, p, n).Going?
    ensures WalkFrom(d, p, m) == WalkFrom(d, p, n)
  {
    WalkOn(d, p, n, m - n);
  }

  /** There are no more packets than bytes. */
  lemma {:induction false} PacketsFit(g: seq<Packet>)
    requires forall j :: 0 <= j < |g| ==> WellFormed(g[j])
    ensures |g| <= |Join(g)|
  {
    if g != [] {
      PacketsFit(g[..|g| - 1]);
      assert WellFormed(g[|g| - 1]);
    }
  }

  lemma LenIs(p: Packet)
    requires WellFormed(p)
    ensures |p.header| == HEADER_SIZE && DataLen(p.header) == |p.body|
  {
  }

  lemma UnpackUnfolds(d: seq<Byte>, at: nat, t: Taken)
    requires at < |d| && PacketFrom(d, at) == Some(t) && HEADER_SIZE <= t.end
    requires Unpack(d, NextFrom(t.end)).Some?
    ensures Unpack(d, at) == Some([t.packet] + Unpack(d, NextFrom(t.end)).value)
  {
    hide PacketFrom, NextFrom;
  }

  lemma {:induction false} UnpackAll(g: seq<Packet>, k: nat)
    requires k < |g| && forall j :: 0 <= j < |g| ==> WellFormed(g[j])
    ensures Unpack(Join(g), Start(g, k)) == Some(g[k..])
    decreases |g| - k
  {
    hide *;
    TakenAt(g, k);
    StartAligned(g, k);
    var end := |Join(g[..k + 1])|;
    if k + 1 < |g| {
      UnpackAll(g, k + 1);
    } else {
      UnpackDone(Join(g), NextFrom(end));
      assert g[k + 1..] == [];
    }
    UnpackUnfolds(Join(g), Start(g, k), Taken(g[k], end));
    assert g[k..] == [g[k]] + g[k + 1..];
  }

  lemma UnpackDone(d: seq<Byte>, at: nat)
    requires |d| <= at
    ensures Unpack(d, at) == Some([])
  {
  }

  /** Both walks agree with the sender: the length check accepts, and the copying loop finds
      exactly the packets of the group. */
  lemma GroupReceived(g: seq<Packet>, d: seq<Byte>)
    requires GroupOk(g, d)
    ensures HEADER_SIZE <= |d| <= MAX_PACKET_SIZE && Accepts(d) && Unpack(d, 0) == Some(g)
  {
    hide Join, WalkFrom, Unpack, Start, WellFormed, Beyond;
    FirstStart(g);
    StartAligned(g, 0);
    WalkAccepts(g, 0);
    PacketsFit(g);
    WalkStays(d, Beyond(d, 0), |g| - 1, |d|);
    UnpackAll(g, 0);
    JoinNotEmpty(g, d);
  }

  lemma FirstStart(g: seq<Packet>)
    requires g != []
    ensures Start(g, 0) == 0
  {
    assert g[..0] == [];
  }

  // ----- datagrams that are cut off

  /** k bytes of the group end with packet i, with or without the padding behind it. */
  predicate EndsAt(g: seq<Packet>, k: nat, i: nat)
    requires i < |g|
  {
    k == |Join(g[..i + 1])| || k == Start(g, i + 1)
  }

  ghost predicate Boundary(g: seq<Packet>, k: nat) {
    exists i :: 0 <= i < |g| && EndsAt(g, k, i)
  }

  /** The starts of the packets are in order, each behind the packet before. */
  lemma {:induction false} StartsRise(g: seq<Packet>, i: nat, j: nat)
    requires i < j < |g| && forall x :: 0 <= x < |g| ==> WellFormed(g[x])
    ensures |Join(g[..i + 1])| <= Start(g, i + 1) <= Start(g, j) < |Join(g[..j + 1])|
    decreases j
  {
    hide Join, Pad, WellFormed;
    StartAligned(g, i);
    PacketAt(g, j);
    if i + 1 < j {
      StartsRise(g, i, j - 1);
      StartAligned(g, j - 1);
    }
  }

  /** What comes before the end of packet i and its padding is no boundary that lies behind. */
  lemma BoundaryFrom(g: seq<Packet>, k: nat, i: nat)
    requires i < |g| && forall x :: 0 <= x < |g| ==> WellFormed(g[x])
    requires Start(g, i) < k <= Start(g, i + 1)
    ensures Boundary(g, k) <==> EndsAt(g, k, i)
  {
    hide WellFormed;
    hide Join, Pad;
    if Boundary(g, k) {
      var j :| 0 <= j < |g| && EndsAt(g, k, j);
      StartAligned(g, j);
      StartAligned(g, i);
      if j < i {
        StartsRise(g, j, i);
      } else if i < j {
        StartsRise(g, i, j);
      }
    }
  }

  /** The walk of the length check through a group of which k bytes have come. */
  lemma {:induction false} CutWalk(g: seq<Packet>, k: nat, i: nat) returns (n: nat)
    requires i < |g| && forall j :: 0 <= j < |g| ==> WellFormed(g[j])
    requires Start(g, i) + HEADER_SIZE <= k <= |Join(g)|
    ensures
      var d := Join(g)[..k];
      var w := WalkFrom(d, Beyond(d, Start(g, i)), n);
      !w.Going? && (w == Done(k) <==> Boundary(g, k))
    decreases |g| - i
  {
    hide WellFormed, Join, Pad, Start, Boundary, EndsAt;
    var d, at, end := Join(g)[..k], Start(g, i), |Join(g[..i + 1])|;
    n := 0;
    CutBeyond(g, k, i);
    if k <= Start(g, i + 1) {
      BoundaryFrom(g, k, i);
      assert EndsAt(g, k, i) <==> k == end || k == Start(g, i + 1) by { EndsMeans(g, k, i); }
    } else {
      var next := Start(g, i + 1);
      LastStart(g, k, i);
      StartBehind(g, i);
      if next + HEADER_SIZE > k {
        n := 1;
        InsideHeader(g, k, i + 1);
      } else {
        var m := CutWalk(g, k, i + 1);
        n := m + 1;
      }
    }
  }

  lemma EndsMeans(g: seq<Packet>, k: nat, i: nat)
    requires i < |g|
    ensures EndsAt(g, k, i) <==> k == |Join(g[..i + 1])| || k == Start(g, i + 1)
  {
  }

  lemma LastStart(g: seq<Packet>, k: nat, i: nat)
    requires i < |g| && forall j :: 0 <= j < |g| ==> WellFormed(g[j])
    requires Start(g, i + 1) < k <= |Join(g)|
    ensures i + 1 < |g|
  {
    hide WellFormed, Join, Pad;
    StartAligned(g, i);
  }

  /** Nothing ends within a header. */
  lemma InsideHeader(g: seq<Packet>, k: nat, i: nat)
    requires i < |g| && forall j :: 0 <= j < |g| ==> WellFormed(g[j])
    requires Start(g, i) < k < Start(g, i) + HEADER_SIZE
    ensures !Boundary(g, k)
  {
    hide WellFormed, Join, Pad;
    PacketAt(g, i);
    StartAligned(g, i);
    BoundaryFrom(g, k, i);
  }

  lemma CutBeyond(g: seq<Packet>, k: nat, i: nat)
    requires i < |g| && forall j :: 0 <= j < |g| ==> WellFormed(g[j])
    requires Start(g, i) + HEADER_SIZE <= k <= |Join(g)|
    ensures
      var end := |Join(g[..i + 1])|;
      && Start(g, i) + HEADER_SIZE <= end <= Start(g, i + 1)
      && Beyond(Join(g)[..k], Start(g, i)) == if end < k then Start(g, i + 1) else end
  {
    hide WellFormed, Join, Start, Pad;
    PacketAt(g, i);
    StartAligned(g, i);
    LenIs(g[i]);
    var d, at := Join(g)[..k], Start(g, i);
    assert d[at..at + HEADER_SIZE] == Join(g)[at..at + HEADER_SIZE];
  }

  /** Of a datagram of which only the first k bytes have come, the length check rejects everything
      unless the cut falls at the end of a packet, or of the padding behind it; at the end of
      packet n - 1 exactly the first n packets are taken out. */
  lemma CutExactly(g: seq<Packet>, k: nat)
    requires k <= |Join(g)| && forall j :: 0 <= j < |g| ==> WellFormed(g[j])
    ensures Accepts(Join(g)[..k]) <==> Boundary(g, k)
    ensures forall n :: 0 < n <= |g| && k == |Join(g[..n])| ==> Unpack(Join(g)[..k], 0) == Some(g[..n])
  {
    hide WellFormed, Join, Pad, EndsAt, Boundary, Unpack, WalkFrom;
    var d := Join(g)[..k];
    forall n | 0 < n <= |g| && k == |Join(g[..n])|
      ensures Unpack(d, 0) == Some(g[..n])
    {
      JoinPrefix(g, n);
      FirstStart(g[..n]);
      UnpackAll(g[..n], 0);
      assert d == Join(g[..n]);
    }
    if g == [] {
      NoPackets(k);
    } else {
      FirstStart(g);
      if k < HEADER_SIZE {
        TooShort(g, k);
      } else {
        var n := CutWalk(g, k, 0);
        WalkEndsExactly(d);
        var p := Beyond(d, 0);
        if n <= |d| {
          WalkStays(d, p, n, |d|);
        } else {
          assert !Walk(d, n).Going?;
          WalkStays(d, p, |d|, n);
        }
      }
    }
  }

  lemma NoPackets(k: nat)
    requires k <= |Join([])|
    ensures k == 0 && !Boundary([], k)
  {
  }

  lemma TooShort(g: seq<Packet>, k: nat)
    requires g != [] && k < HEADER_SIZE && forall j :: 0 <= j < |g| ==> WellFormed(g[j])
    ensures !Boundary(g, k)
  {
    hide WellFormed, Join, Pad, Start;
    FirstStart(g);
    if k > 0 {
      InsideHeader(g, k, 0);
    } else if Boundary(g, k) {
      var j :| 0 <= j < |g| && EndsAt(g, k, j);
      StartAligned(g, j);
    }
  }

  /** data_len is a two's complement number, low byte first. */
  lemma DataLenExact(header: seq<Byte>)
    requires |header| == HEADER_SIZE
    ensures (DataLen(header) - (header[30] as int) - 256 * (header[31] as int)) % 0x1_0000 == 0
    ensures forall body: seq<Byte> :: WellFormed(Packet(header, body)) <==>
              |body| <= MAX_PACKET_SIZE - HEADER_SIZE && header[30] == |body| % 256 && header[31] == |body| / 256
  {
    var low, high: int := header[30], header[31];
    forall n: nat | n <= MAX_PACKET_SIZE
      ensures DataLen(header) == n <==> low == n % 256 && high == n / 256
    {
      if DataLen(header) == n {
        assert n == low + 256 * high;
      }
    }
  }

  /** What is taken out of datagrams that come one after the other; one that fails the length check
      is dropped. */
  function ReceiveAll(ds: seq<seq<Byte>>): Option<seq<Packet>> {
    if ds == [] then Some([])
    else
      var n := |ds| - 1;
      match ReceiveAll(ds[..n])
      case None => None
      case Some(before) =>
        if !Accepts(ds[n]) then Some(before)
        else
          match Unpack(ds[n], 0)
          case None => None
          case Some(ps) => Some(before + ps)
  }

  lemma {:induction false} GroupsReceived(groups: seq<seq<Packet>>, ds: seq<seq<Byte>>)
    requires |ds| == |groups| && forall i :: 0 <= i < |groups| ==> GroupOk(groups[i], ds[i])
    ensures ReceiveAll(ds) == Some(Concat(groups))
  {
    if ds != [] {
      var n := |ds| - 1;
      GroupsReceived(groups[..n], ds[..n]);
      assert GroupOk(groups[n], ds[n]);
      GroupReceived(groups[n], ds[n]);
      hide GroupOk, Accepts, Unpack;
    }
  }

  /** Group i as it arrives: whole, or cut off somewhere inside a packet or a header. */
  ghost predicate CutOrWhole(g: seq<Packet>, d: seq<Byte>, whole: bool) {
    && (forall j :: 0 <= j < |g| ==> WellFormed(g[j]))
    && if whole then GroupOk(g, d) else |d| <= |Join(g)| && d == Join(g)[..|d|] && !Boundary(g, |d|)
  }

  function Arriving(groups: seq<seq<Packet>>, whole: seq<bool>): (r: seq<seq<Packet>>)
    requires |whole| == |groups|
    ensures |r| == |groups|
  {
    seq(|groups|, i requires 0 <= i < |groups| => if whole[i] then groups[i] else [])
  }

  /** A datagram that is cut off is lost as a whole and nothing else is lost with it. */
  lemma {:induction false} CutsAreDropped(groups: seq<seq<Packet>>, ds: seq<seq<Byte>>, whole: seq<bool>)
    requires |ds| == |groups| == |whole| && forall i :: 0 <= i < |groups| ==> CutOrWhole(groups[i], ds[i], whole[i])
    ensures ReceiveAll(ds) == Some(Concat(Arriving(groups, whole)))
  {
    if ds != [] {
      var n := |ds| - 1;
      CutsAreDropped(groups[..n], ds[..n], whole[..n]);
      var r := Arriving(groups, whole);
      assert r[..n] == Arriving(groups[..n], whole[..n]);
      assert CutOrWhole(groups[n], ds[n], whole[n]);
      if whole[n] {
        GroupReceived(groups[n], ds[n]);
      } else {
        CutExactly(groups[n], |ds[n]|);
        assert Concat(r[..n]) + [] == Concat(r[..n]);
      }
      hide GroupOk, Accepts, Unpack;
    }
  }

  /** Whatever packets are sent, however they fall into datagrams: no datagram exceeds
      MAX_PACKET_SIZE, the receiver's length check accepts every one of them, and what it unpacks
      is what was sent, in order. */
  lemma PackingRoundTrip(ps: seq<Packet>)
    requires forall i :: 0 <= i < |ps| ==> WellFormed(ps[i])
    ensures forall i :: 0 <= i < |Datagrams(ps)| ==> |Datagrams(ps)[i]| <= MAX_PACKET_SIZE
    ensures ReceiveAll(Datagrams(ps)) == Some(ps)
  {
    hide WellFormed;
    var groups := PackedInGroups(ps);
    GroupsReceived(groups, Datagrams(ps));
    forall i | 0 <= i < |Datagrams(ps)|
      ensures |Datagrams(ps)[i]| <= MAX_PACKET_SIZE
    {
      assert GroupOk(groups[i], Datagrams(ps)[i]);
    }
  }

  // ----- the program's own loops

  /** Queue_scat, Queued_bytes and what has gone to the network. */
  class Outgoing {
    var queued: seq<Byte>
    var elements: nat
    var sent: seq<seq<Byte>>

    function View(): Sending
      reads this
    {
      Sending(sent, Queue(queued, elements))
    }

    constructor ()
      ensures View() == Sending([], NOTHING)
    {
      queued, elements, sent := [], 0, [];
    }

    method FlushBcast()
      modifies this
      ensures View() == Flush(old(View()))
    {
      if |queued| == 0 {
        return;
      }
      sent := sent + [queued];
      queued, elements := [], 0;
    }

    method QueueBcast(p: Packet)
      requires queued == [] ==> elements == 0
      modifies this
      ensures View() == Enqueue(old(View()), p)
    {
      var newBytes := |p.header| + |p.body|;
      var align, alignElements := 0, 0;
      if |queued| % 4 != 0 {
        align, alignElements := 4 - |queued| % 4, 1;
      }
      if |queued| + newBytes + align > MAX_PACKET_SIZE || elements + 2 + alignElements > ARCH_SCATTER_SIZE {
        FlushBcast();
        align := 0;
      }
      if align > 0 {
        queued := queued + PADDING[..align];
        elements := elements + 1;
      } else {
        assert queued + PADDING[..0] == queued;
      }
      queued := queued + p.header + p.body;
      elements := elements + 2;
      assert forall b: seq<Byte> :: b + p.header + p.body == b + Encode(p);
    }
  }

  /** The length check, for a datagram on which it ends: the length if the packets fill the datagram
      exactly, -1 otherwise. */
  method CheckLength(d: seq<Byte>) returns (ret: int)
    requires |d| >= HEADER_SIZE && !Repeats(d)
    ensures ret == if Accepts(d) then |d| else -1
  {
    WalkEndsExactly(d);
    var processed := Beyond(d, 0);
    ghost var left: nat := |d|;
    while processed < |d|
      invariant WalkFrom(d, processed, left) == Walk(d, |d|)
      decreases left
    {
      if processed < HEADER_SIZE || processed + HEADER_SIZE > |d| {
        return -1;
      }
      processed := processed + HEADER_SIZE + DataLen(d[processed..processed + HEADER_SIZE]);
      if 0 <= processed < |d| {
        processed := processed + Pad(processed);
      }
      left := left - 1;
    }
    return if processed == |d| then |d| else -1;
  }

  /** The copying loop. */
  method CopyPackets(d: seq<Byte>) returns (r: Option<seq<Packet>>)
    ensures r == Unpack(d, 0)
  {
    hide PacketFrom;
    var packets := [];
    var at := 0;
    PrependNothing(Unpack(d, 0));
    while at < |d|
      invariant Unpack(d, 0) == Prepend(packets, Unpack(d, at))
      decreases |d| - at
    {
      match PacketFrom(d, at)
      case None =>
        return None;
      case Some(t) =>
        PrependMore(packets, t.packet, Unpack(d, NextFrom(t.end)));
        packets := packets + [t.packet];
        at := NextFrom(t.end);
    }
    assert packets + [] == packets;
    return Some(packets);
  }

  function Prepend(ps: seq<Packet>, r: Option<seq<Packet>>): Option<seq<Packet>> {
    match r
    case None => None
    case Some(qs) => Some(ps + qs)
  }

  lemma PrependNothing(r: Option<seq<Packet>>)
    ensures Prepend([], r) == r
  {
    if r.Some? {
      assert [] + r.value == r.value;
    }
  }

  lemma PrependMore(ps: seq<Packet>, p: Packet, r: Option<seq<Packet>>)
    ensures Prepend(ps, Prepend([p], r)) == Prepend(ps + [p], r)
  {
    if r.Some? {
      assert ps + ([p] + r.value) == (ps + [p]) + r.value;
    }
  }
}

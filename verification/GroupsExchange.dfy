/** The state exchange as a whole: the groups of one synced set cut into GROUPS messages, written
    out as bytes, cut into packet bodies, received in any order, put together and read. */
module GroupsExchange {
  import opened Outcomes
  import opened Groups
  import opened GroupsWire
  import opened GroupsBytes
  import opened GroupsRebuild

  /** A message as it is received: its packet bodies. */
  type Fragments = seq<seq<Byte>>

  // ----- writing

  function PutProcs(ps: seq<int>): seq<Byte>
    requires forall i :: 0 <= i < |ps| ==> Int32(ps[i])
  {
    if ps == [] then []
    else
      assert Int32(ps[0]);
      PutInt(ps[0]) + PutProcs(ps[1..])
  }

  predicate SyncedOk(synced: seq<int>) {
    |synced| < 0x1_0000_0000 && forall i :: 0 <= i < |synced| ==> Int32(synced[i])
  }

  /** Membership id, flag and, in the first message, the synced set. */
  function PutFront(reg: MembId, first: bool, synced: seq<int>): (b: seq<Byte>)
    requires MembOk(reg) && SyncedOk(synced)
  {
    PutMemb(reg) + (if first then [1] + Put(|synced|, 4) + PutProcs(synced) else [0])
  }

  predicate PartsOk(ps: seq<GroupPart>) {
    forall i :: 0 <= i < |ps| ==> PartOk(ps[i])
  }

  /** What the sender is: its message header (48 bytes), the new membership, and its synced set. */
  datatype Sender = Sender(header: seq<Byte>, reg: MembId, synced: seq<int>)

  predicate SenderOk(s: Sender) {
    |s.header| == DATA_HEADER_SIZE && MembOk(s.reg) && SyncedOk(s.synced)
  }

  function Body(s: Sender, first: bool, ps: seq<GroupPart>): seq<Byte>
    requires SenderOk(s) && PartsOk(ps)
  {
    PutFront(s.reg, first, s.synced) + PutParts(ps)
  }

  function Write(s: Sender, first: bool, ps: seq<GroupPart>): Fragments
    requires SenderOk(s) && PartsOk(ps)
  {
    Chunks(s.header + Body(s, first, ps))
  }

  /** The parts that a buffer has of each group. */
  function PartsOf(groups: seq<GroupPart>, spans: seq<Span>): (ps: seq<GroupPart>)
    requires SpansOk(groups, spans)
    ensures |ps| == |spans|
  {
    seq(|spans|, i requires 0 <= i < |spans| => Part(groups, spans[i]))
  }

  /** The messages for these buffers, in the order they are sent. */
  function WriteAll(s: Sender, groups: seq<GroupPart>, bufs: seq<seq<Span>>, first: bool): seq<Fragments>
    requires SenderOk(s) && PartsOk(groups) && forall i :: 0 <= i < |bufs| ==> SpansOk(groups, bufs[i])
  {
    if bufs == [] then []
    else
      SpansPartsOk(groups, bufs[0]);
      [Write(s, first, PartsOf(groups, bufs[0]))] + WriteAll(s, groups, bufs[1..], false)
  }

  lemma SpansPartsOk(groups: seq<GroupPart>, spans: seq<Span>)
    requires PartsOk(groups) && SpansOk(groups, spans)
    ensures PartsOk(PartsOf(groups, spans))
  {
    forall i | 0 <= i < |spans|
      ensures PartOk(Part(groups, spans[i]))
    {
      var s := spans[i];
      assert SpanOk(groups, s) && PartOk(groups[s.g]);
      var all, some := groups[s.g].daemons, groups[s.g].daemons[s.d..s.e];
      assert forall j :: 0 <= j < |some| ==> some[j] == all[s.d + j];
    }
  }

  // ----- reading, as G_mess_to_groups does

  /** What one message says: the membership, the synced set if it is the first, and the groups. */
  datatype Mess = Mess(reg: MembId, synced: Option<seq<int>>, parts: seq<GroupPart>)

  function TakeProcs(b: seq<Byte>, n: nat): Option<Read<seq<int>>>
    decreases n
  {
    if n == 0 then Some(Read([], b))
    else if |b| < 4 then None
    else
      match TakeProcs(b[4..], n - 1)
      case None => None
      case Some(r) => Some(Read([GetInt(b[..4])] + r.value, r.rest))
  }

  function TakeSynced(b: seq<Byte>): Option<Read<Option<seq<int>>>> {
    if b == [] then None
    else if b[0] != 1 then Some(Read(None, b[1..]))
    else if |b| < 5 then None
    else
      match TakeProcs(b[5..], Get(b[1..5]))
      case None => None
      case Some(r) => Some(Read(Some(r.value), r.rest))
  }

  function ReadMess(m: Fragments): Option<Mess> {
    var b := Glue(m);
    if |b| < DATA_HEADER_SIZE then None
    else
      match TakeMemb(b[DATA_HEADER_SIZE..])
      case None => None
      case Some(memb) =>
        match TakeSynced(memb.rest)
        case None => None
        case Some(synced) =>
          match TakeParts(synced.rest)
          case None => None
          case Some(ps) => Some(Mess(memb.value, synced.value, ps))
  }

  /** The groups of all messages, in the order in which they are read. */
  function ReadAll(ms: seq<Fragments>): Option<seq<GroupPart>> {
    if ms == [] then Some([])
    else
      match (ReadMess(ms[0]), ReadAll(ms[1..]))
      case (Some(m), Some(ps)) => Some(m.parts + ps)
      case _ => None
  }

  // ----- one message

  lemma OneProc(p: int, more: seq<Byte>, n: nat, ps: seq<int>, rest: seq<Byte>)
    requires Int32(p) && TakeProcs(more, n) == Some(Read(ps, rest))
    ensures TakeProcs(PutInt(p) + more, n + 1) == Some(Read([p] + ps, rest))
  {
    GetPutInt(p);
    hide PutInt, GetInt;
    var b := PutInt(p) + more;
    assert b[..4] == PutInt(p) && b[4..] == more;
  }

  lemma PutProcsOne(ps: seq<int>)
    requires ps != [] && forall i :: 0 <= i < |ps| ==> Int32(ps[i])
    ensures Int32(ps[0]) && PutProcs(ps) == PutInt(ps[0]) + PutProcs(ps[1..])
  {
  }

  lemma FirstAndRest(ps: seq<int>)
    requires ps != []
    ensures [ps[0]] + ps[1..] == ps
  {
  }

  lemma {:induction false} ProcsBack(ps: seq<int>, rest: seq<Byte>)
    requires forall i :: 0 <= i < |ps| ==> Int32(ps[i])
    ensures TakeProcs(PutProcs(ps) + rest, |ps|) == Some(Read(ps, rest))
  {
    if ps == [] {
      assert PutProcs(ps) + rest == rest;
    } else {
      hide *;
      ProcsBack(ps[1..], rest);
      PutProcsOne(ps);
      OneProc(ps[0], PutProcs(ps[1..]) + rest, |ps| - 1, ps[1..], rest);
      Associative(PutInt(ps[0]), PutProcs(ps[1..]), rest);
      FirstAndRest(ps);
    }
  }

  lemma SyncedBack(first: bool, synced: seq<int>, rest: seq<Byte>)
    requires SyncedOk(synced)
    ensures
      var b := (if first then [1] + Put(|synced|, 4) + PutProcs(synced) else [0]) + rest;
      TakeSynced(b) == Some(Read(if first then Some(synced) else None, rest))
  {
    if first {
      FirstFields(Put(|synced|, 4), PutProcs(synced), rest);
      GetPut4(|synced|);
      ProcsBack(synced, rest);
      hide Put, Get, PutProcs, TakeProcs;
    } else {
      assert ([0] + rest)[1..] == rest;
      hide Put, Get, PutProcs, TakeProcs;
    }
  }

  lemma FirstFields(size: seq<Byte>, procs: seq<Byte>, rest: seq<Byte>)
    requires |size| == 4
    ensures var b := [1] + size + procs + rest; |b| >= 5 && b[0] == 1 && b[1..5] == size && b[5..] == procs + rest
  {
    var b := [1] + size + procs + rest;
    assert b[1..5] == size;
    assert b[5..] == procs + rest;
  }

  lemma MembBack(memb: MembId, rest: seq<Byte>)
    requires MembOk(memb)
    ensures TakeMemb(PutMemb(memb) + rest) == Some(Read(memb, rest))
  {
    var b := PutMemb(memb) + rest;
    assert b[..4] == PutInt(memb.proc) && b[4..8] == PutInt(memb.time) && b[8..] == rest;
    GetPutInt(memb.proc);
    GetPutInt(memb.time);
    hide PutInt, GetInt;
  }

  /** Reading the packet bodies of a message gives what was written into it. */
  lemma MessBack(s: Sender, first: bool, ps: seq<GroupPart>)
    requires SenderOk(s) && PartsOk(ps)
    ensures ReadMess(Write(s, first, ps)) == Some(Mess(s.reg, if first then Some(s.synced) else None, ps))
  {
    hide PutMemb, TakeMemb, TakeSynced, PutParts, TakeParts, Chunks, Glue, PutProcs, Put;
    var front := if first then [1] + Put(|s.synced|, 4) + PutProcs(s.synced) else [0];
    var b := s.header + Body(s, first, ps);
    assert Body(s, first, ps) == PutMemb(s.reg) + (front + PutParts(ps));
    assert b[DATA_HEADER_SIZE..] == PutMemb(s.reg) + (front + PutParts(ps));
    ChunksExact(b);
    MembBack(s.reg, front + PutParts(ps));
    SyncedBack(first, s.synced, PutParts(ps));
    PartsBack(ps);
  }

  // ----- all of them, in any order

  function ToRecords(ps: seq<GroupPart>): (rs: seq<Record>)
    ensures |rs| == |ps|
  {
    seq(|ps|, i requires 0 <= i < |ps| => ToRecord(ps[i]))
  }

  /** The records of all messages, read one after the other. */
  function ReadRecords(ms: seq<Fragments>): seq<Record> {
    if ms == [] then [] else RecordsIn(ms[0]) + ReadRecords(ms[1..])
  }

  function RecordsIn(m: Fragments): seq<Record> {
    match ReadMess(m)
    case None => []
    case Some(x) => ToRecords(x.parts)
  }

  lemma ToRecordsConcat(a: seq<GroupPart>, b: seq<GroupPart>)
    ensures ToRecords(a + b) == ToRecords(a) + ToRecords(b)
  {
  }

  lemma {:induction false} ReadAllRecords(ms: seq<Fragments>)
    requires forall i :: 0 <= i < |ms| ==> ReadMess(ms[i]).Some?
    ensures ReadAll(ms).Some? && ToRecords(ReadAll(ms).value) == ReadRecords(ms)
  {
    hide ReadMess;
    if ms != [] {
      ReadAllRecords(ms[1..]);
      assert ReadMess(ms[0]).Some?;
      ToRecordsConcat(ReadMess(ms[0]).value.parts, ReadAll(ms[1..]).value);
    }
  }

  /** Taking one message out of the middle takes its records out. */
  lemma {:induction false} ReadWithout(ms: seq<Fragments>, i: nat)
    requires i < |ms|
    ensures multiset(ReadRecords(ms)) == multiset(RecordsIn(ms[i])) + multiset(ReadRecords(ms[..i] + ms[i + 1..]))
  {
    hide RecordsIn;
    if i == 0 {
      assert ms[..0] + ms[1..] == ms[1..];
    } else {
      ReadWithout(ms[1..], i - 1);
      var t := ms[..i] + ms[i + 1..];
      assert t[0] == ms[0];
      assert t[1..] == ms[1..][..i - 1] + ms[1..][i..];
    }
  }

  /** The records read depend on the messages, not on their order. */
  lemma {:induction false} AnyOrder(ms: seq<Fragments>, ns: seq<Fragments>)
    requires multiset(ms) == multiset(ns)
    ensures multiset(ReadRecords(ms)) == multiset(ReadRecords(ns))
    decreases |ms|
  {
    hide RecordsIn;
    if ms == [] {
      NothingThere(ns);
    } else {
      var i := FoundIn(ms, ns);
      var rest := ns[..i] + ns[i + 1..];
      WithoutOne(ns, i);
      WithoutOne(ms, 0);
      assert ms[..0] + ms[1..] == ms[1..];
      AnyOrder(ms[1..], rest);
      ReadWithout(ns, i);
    }
  }

  lemma WithoutOne(ns: seq<Fragments>, i: nat)
    requires i < |ns|
    ensures multiset(ns[..i] + ns[i + 1..]) == multiset(ns) - multiset{ns[i]}
  {
    assert ns == ns[..i] + ([ns[i]] + ns[i + 1..]);
  }

  lemma NothingThere(ns: seq<Fragments>)
    requires multiset(ns) == multiset{}
    ensures ns == []
  {
    assert |multiset(ns)| == |ns|;
  }

  lemma FoundIn(ms: seq<Fragments>, ns: seq<Fragments>) returns (i: nat)
    requires ms != [] && multiset(ms) == multiset(ns)
    ensures i < |ns| && ns[i] == ms[0]
  {
    assert ms[0] in multiset(ms);
    assert ms[0] in ns;
    i :| 0 <= i < |ns| && ns[i] == ms[0];
  }

  /** In the order sent, the records are those of the spans. */
  lemma {:induction false} SentRecords(s: Sender, groups: seq<GroupPart>, bufs: seq<seq<Span>>, first: bool)
    requires SenderOk(s) && PartsOk(groups) && forall i :: 0 <= i < |bufs| ==> SpansOk(groups, bufs[i])
    ensures SpansOk(groups, Concat(bufs))
    ensures ReadRecords(WriteAll(s, groups, bufs, first)) == Records(groups, Concat(bufs))
    ensures forall m :: m in WriteAll(s, groups, bufs, first) ==> ReadMess(m).Some?
  {
    hide ReadMess, Write, PartsOk, SenderOk;
    if bufs != [] {
      SpansPartsOk(groups, bufs[0]);
      var ps := PartsOf(groups, bufs[0]);
      MessBack(s, first, ps);
      SentRecords(s, groups, bufs[1..], false);
      var ms := WriteAll(s, groups, bufs, first);
      assert ms[0] == Write(s, first, ps) && ms[1..] == WriteAll(s, groups, bufs[1..], false);
      assert RecordsIn(ms[0]) == ToRecords(ps);
      RecordsConcat(groups, bufs[0], Concat(bufs[1..]));
    }
  }

  lemma RecordsConcat(groups: seq<GroupPart>, a: seq<Span>, b: seq<Span>)
    requires SpansOk(groups, a) && SpansOk(groups, b)
    ensures SpansOk(groups, a + b)
    ensures Records(groups, a + b) == ToRecords(PartsOf(groups, a)) + Records(groups, b)
  {
    hide Part, ToRecord;
    var rs := Records(groups, a + b);
    forall i | 0 <= i < |a + b|
      ensures rs[i] == (ToRecords(PartsOf(groups, a)) + Records(groups, b))[i]
    {
    }
  }

  lemma {:induction false} ConcatOk(groups: seq<GroupPart>, bufs: seq<seq<Span>>)
    requires SpansOk(groups, Concat(bufs))
    ensures forall i :: 0 <= i < |bufs| ==> SpansOk(groups, bufs[i])
  {
    if bufs != [] {
      var all, rest := Concat(bufs), Concat(bufs[1..]);
      assert forall i :: 0 <= i < |bufs[0]| ==> all[i] == bufs[0][i];
      assert forall i :: 0 <= i < |rest| ==> all[|bufs[0]| + i] == rest[i];
      ConcatOk(groups, bufs[1..]);
      assert forall i :: 0 < i < |bufs| ==> bufs[i] == bufs[1..][i - 1];
    }
  }

  // ----- the theorem

  function Buffers(groups: seq<GroupPart>, synced: nat): seq<seq<Span>>
    requires Fit(groups)
  {
    Split(groups, Cursor(0, 0), true, synced)
  }

  lemma BuffersOk(groups: seq<GroupPart>, gs: GroupsList, synced: nat)
    requires Represents(groups, gs) && Fit(groups)
    ensures forall i :: 0 <= i < |Buffers(groups, synced)| ==> SpansOk(groups, Buffers(groups, synced)[i])
  {
    SplitChains(groups, Cursor(0, 0), true, synced);
    var spans := Concat(Buffers(groups, synced));
    hide Fit, Split, Represents;
    ChainOrder(groups, spans, Cursor(0, 0), Cursor(|groups|, 0));
    ConcatOk(groups, Buffers(groups, synced));
  }

  /** The GROUPS messages that the representative of a synced set sends, in this order. */
  ghost function Messages(s: Sender, groups: seq<GroupPart>, gs: GroupsList): seq<Fragments>
    requires SenderOk(s) && PartsOk(groups) && Represents(groups, gs) && Fit(groups)
  {
    BuffersOk(groups, gs, |s.synced|);
    WriteAll(s, groups, Buffers(groups, |s.synced|), true)
  }

  /** From a list of groups to bytes and back: the messages of a synced set, cut into packet bodies
      and received in any order by a daemon that knows none of the groups, can all be read, and
      reading them one after the other rebuilds exactly these groups. */
  lemma WholeExchange(s: Sender, groups: seq<GroupPart>, gs: GroupsList, ms: seq<Fragments>)
    requires SenderOk(s) && PartsOk(groups) && Represents(groups, gs) && Fit(groups)
    requires multiset(ms) == multiset(Messages(s, groups, gs))
    ensures ReadAll(ms).Some? && AbsorbAll(map[], ToRecords(ReadAll(ms).value)) == gs
  {
    var bufs := Buffers(groups, |s.synced|);
    BuffersOk(groups, gs, |s.synced|);
    hide SenderOk, PartsOk, Represents, Fit, AbsorbAll, ReadMess, WriteAll, ReadRecords, Split;
    SentRecords(s, groups, bufs, true);
    var sent := WriteAll(s, groups, bufs, true);
    AnyOrder(ms, sent);
    forall i | 0 <= i < |ms|
      ensures ReadMess(ms[i]).Some?
    {
      assert ms[i] in multiset(ms);
      assert ms[i] in sent;
    }
    ReadAllRecords(ms);
    ExchangeRoundTrip(groups, gs, |s.synced|, ToRecords(ReadAll(ms).value));
  }

  /** And exactly one of them brings the synced set. */
  lemma SyncedSetArrives(s: Sender, groups: seq<GroupPart>, gs: GroupsList, i: nat)
    requires SenderOk(s) && PartsOk(groups) && Represents(groups, gs) && Fit(groups)
    requires i < |Messages(s, groups, gs)|
    ensures
      var m := ReadMess(Messages(s, groups, gs)[i]);
      m.Some? && m.value.reg == s.reg && m.value.synced == if i == 0 then Some(s.synced) else None
  {
    BuffersOk(groups, gs, |s.synced|);
    hide Represents, Fit, Split, SenderOk, PartsOk, ReadMess, Write;
    FrontsArrive(s, groups, Buffers(groups, |s.synced|), true, i);
  }

  lemma {:induction false} FrontsArrive(s: Sender, groups: seq<GroupPart>, bufs: seq<seq<Span>>, first: bool, i: nat)
    requires SenderOk(s) && PartsOk(groups) && forall k :: 0 <= k < |bufs| ==> SpansOk(groups, bufs[k])
    requires i < |WriteAll(s, groups, bufs, first)|
    ensures
      var m := ReadMess(WriteAll(s, groups, bufs, first)[i]);
      m.Some? && m.value.reg == s.reg && m.value.synced == if first && i == 0 then Some(s.synced) else None
    decreases |bufs|
  {
    hide ReadMess, Write, PartsOk, SenderOk;
    SpansPartsOk(groups, bufs[0]);
    if i == 0 {
      MessBack(s, first, PartsOf(groups, bufs[0]));
    } else {
      FrontsArrive(s, groups, bufs[1..], false, i - 1);
    }
  }

  // ----- no message is longer than its buffer

  lemma ProcsSize(ps: seq<int>)
    requires forall i :: 0 <= i < |ps| ==> Int32(ps[i])
    ensures |PutProcs(ps)| == 4 * |ps|
  {
  }

  lemma {:induction false} PartsSize(groups: seq<GroupPart>, spans: seq<Span>)
    requires PartsOk(groups) && SpansOk(groups, spans)
    ensures PartsOk(PartsOf(groups, spans)) && |PutParts(PartsOf(groups, spans))| == SpansSize(groups, spans)
  {
    SpansPartsOk(groups, spans);
    var ps := PartsOf(groups, spans);
    hide PartOk, PutPart;
    if spans != [] {
      assert ps[1..] == PartsOf(groups, spans[1..]);
      PartsSize(groups, spans[1..]);
      assert PartOk(ps[0]);
      PartSize(ps[0]);
    }
  }

  /** What is counted in front of the groups and for each of them are the bytes written. */
  lemma BodySize(s: Sender, first: bool, groups: seq<GroupPart>, spans: seq<Span>)
    requires SenderOk(s) && PartsOk(groups) && SpansOk(groups, spans)
    ensures PartsOk(PartsOf(groups, spans))
    ensures |Body(s, first, PartsOf(groups, spans))| == Preamble(first, |s.synced|) + SpansSize(groups, spans)
  {
    PartsSize(groups, spans);
    ProcsSize(s.synced);
    hide PutParts, PutProcs, SpansSize, PartsOk;
  }

  lemma MessageFits(s: Sender, groups: seq<GroupPart>, c: Cursor, first: bool)
    requires SenderOk(s) && PartsOk(groups) && CursorOk(groups, c)
    requires Preamble(first, |s.synced|) + DATA_HEADER_SIZE <= GROUPS_BUF_SIZE
    ensures
      var spans := FillGroups(groups, c, Preamble(first, |s.synced|)).spans;
      && SpansOk(groups, spans) && PartsOk(PartsOf(groups, spans))
      && |Glue(Write(s, first, PartsOf(groups, spans)))| <= GROUPS_BUF_SIZE
  {
    var used := Preamble(first, |s.synced|);
    var spans := FillGroups(groups, c, used).spans;
    GroupsStayWithin(groups, c, used);
    BodySize(s, first, groups, spans);
    ChunksExact(s.header + Body(s, first, PartsOf(groups, spans)));
    hide Body, Chunks, Glue, FillGroups, PartsOk, SpansOk, SpansSize;
  }

  lemma {:induction false} SplitFits(s: Sender, groups: seq<GroupPart>, c: Cursor, first: bool)
    requires SenderOk(s) && PartsOk(groups) && Fit(groups) && CursorOk(groups, c)
    requires Preamble(first, |s.synced|) + DATA_HEADER_SIZE <= GROUPS_BUF_SIZE
    requires forall i :: 0 <= i < |Split(groups, c, first, |s.synced|)| ==> SpansOk(groups, Split(groups, c, first, |s.synced|)[i])
    ensures forall m :: m in WriteAll(s, groups, Split(groups, c, first, |s.synced|), first) ==> |Glue(m)| <= GROUPS_BUF_SIZE
    decreases |groups| - c.g, if c.g < |groups| then |groups[c.g].daemons| - c.d else 0, if first then 1 else 0
  {
    hide Write, Glue, PartsOk, SenderOk, SpansOk, Fit, FillGroups;
    var bufs := Split(groups, c, first, |s.synced|);
    var next := FillGroups(groups, c, Preamble(first, |s.synced|)).next;
    MessageFits(s, groups, c, first);
    FillForward(groups, c, Preamble(first, |s.synced|));
    if next.g < |groups| {
      SplitDecreases(groups, c, first, |s.synced|);
      var rest := Split(groups, next, false, |s.synced|);
      assert bufs[1..] == rest;
      assert forall i :: 0 <= i < |rest| ==> rest[i] == bufs[i + 1];
      SplitFits(s, groups, next, false);
    } else {
      assert bufs[1..] == [];
    }
  }

  /** Written out, no message is longer than its buffer if the synced set leaves room in the first. */
  lemma MessagesFit(s: Sender, groups: seq<GroupPart>, gs: GroupsList)
    requires SenderOk(s) && PartsOk(groups) && Represents(groups, gs) && Fit(groups)
    requires DATA_HEADER_SIZE + 8 + 1 + 4 + 4 * |s.synced| <= GROUPS_BUF_SIZE
    ensures forall m :: m in Messages(s, groups, gs) ==> |Glue(m)| <= GROUPS_BUF_SIZE
  {
    hide Represents, Fit, Split, SenderOk, PartsOk, WriteAll, Glue, SpansOk;
    BuffersOk(groups, gs, |s.synced|);
    var bufs := Buffers(groups, |s.synced|);
    assert bufs == Split(groups, Cursor(0, 0), true, |s.synced|);
    assert forall i :: 0 <= i < |bufs| ==> SpansOk(groups, bufs[i]);
    SplitFits(s, groups, Cursor(0, 0), true);
  }

  // ----- what can be sent

  /** A sender can write out its membership and its synced set exactly if every number fits its field. */
  lemma SenderExactly(s: Sender)
    ensures SenderOk(s) <==>
            && |s.header| == DATA_HEADER_SIZE && |s.synced| < 0x1_0000_0000
            && -0x8000_0000 <= s.reg.proc < 0x8000_0000 && -0x8000_0000 <= s.reg.time < 0x8000_0000
            && forall i :: 0 <= i < |s.synced| ==> -0x8000_0000 <= s.synced[i] < 0x8000_0000
  {
  }

  /** A group can be written out exactly if every number fits its field and every name has its 32
      bytes. */
  lemma PartExactly(p: GroupPart)
    ensures PartOk(p) <==>
            && |p.name| == MAX_GROUP_NAME && |p.daemons| < 0x1_0000
            && -0x8000_0000 <= p.id.memb.proc < 0x8000_0000 && -0x8000_0000 <= p.id.memb.time < 0x8000_0000
            && -0x8000_0000 <= p.id.index < 0x8000_0000
            && (forall i :: 0 <= i < |p.daemons| ==>
                  && -0x8000_0000 <= p.daemons[i].proc < 0x8000_0000 && -0x8000_0000 <= p.daemons[i].memb.proc < 0x8000_0000
                  && -0x8000_0000 <= p.daemons[i].memb.time < 0x8000_0000)
            && (forall i :: 0 <= i < |p.daemons| ==> |p.daemons[i].members| < 0x1_0000)
            && (forall i, j :: 0 <= i < |p.daemons| && 0 <= j < |p.daemons[i].members| ==>
                  |p.daemons[i].members[j]| == MAX_GROUP_NAME)
  {
  }

  lemma PartsExactly(ps: seq<GroupPart>)
    ensures PartsOk(ps) <==> forall p :: p in ps ==> PartOk(p)
  {
    hide PartOk;
  }
}

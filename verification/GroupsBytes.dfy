/** The bytes of a GROUPS message: how they are written, read back, and cut into packet bodies. */
module GroupsBytes {
  import opened Outcomes
  import opened Groups
  import opened GroupsWire

  /** A value read from the front of some bytes, and the bytes behind it. */
  datatype Read<T> = Read(value: T, rest: seq<Byte>)

  // ----- integers, least significant byte first

  function Put(n: nat, k: nat): (b: seq<Byte>)
    ensures |b| == k
    decreases k
  {
    if k == 0 then [] else [n % 256] + Put(n / 256, k - 1)
  }

  function Get(b: seq<Byte>): nat {
    if b == [] then 0 else (b[0] as int) + 256 * Get(b[1..])
  }

  lemma GetPut4(n: nat)
    requires n < 0x1_0000_0000
    ensures Get(Put(n, 4)) == n
  {
    GetPut(n, 3);
    GetPut(n / 256, 2);
    GetPut(n / 256 / 256, 1);
    GetPut(n / 256 / 256 / 256, 0);
    assert Put(n / 256 / 256 / 256 / 256, 0) == [];
  }

  lemma GetPut2(n: nat)
    requires n < 0x1_0000
    ensures Get(Put(n, 2)) == n
  {
    GetPut(n, 1);
    GetPut(n / 256, 0);
    assert Put(n / 256 / 256, 0) == [];
  }

  lemma GetPut(n: nat, k: nat)
    ensures Get(Put(n, k + 1)) == n % 256 + 256 * Get(Put(n / 256, k))
  {
    var b := Put(n, k + 1);
    assert b[1..] == Put(n / 256, k);
  }

  /** An int32 in two's complement. */
  function PutInt(x: int): (b: seq<Byte>)
    requires -0x8000_0000 <= x < 0x8000_0000
    ensures |b| == 4
  {
    Put(if x < 0 then x + 0x1_0000_0000 else x, 4)
  }

  function GetInt(b: seq<Byte>): int {
    var n := Get(b);
    if n < 0x8000_0000 then n else n - 0x1_0000_0000
  }

  lemma GetPutInt(x: int)
    requires -0x8000_0000 <= x < 0x8000_0000
    ensures GetInt(PutInt(x)) == x
  {
    GetPut4(if x < 0 then x + 0x1_0000_0000 else x);
  }

  // ----- what fits the fields

  predicate Int32(x: int) {
    -0x8000_0000 <= x < 0x8000_0000
  }

  predicate MembOk(m: MembId) {
    Int32(m.proc) && Int32(m.time)
  }

  predicate DaemonOk(d: DaemonPart) {
    && Int32(d.proc) && MembOk(d.memb) && |d.members| < 0x1_0000
    && forall i :: 0 <= i < |d.members| ==> |d.members[i]| == MAX_GROUP_NAME
  }

  predicate PartOk(p: GroupPart) {
    && |p.name| == MAX_GROUP_NAME && MembOk(p.id.memb) && Int32(p.id.index) && |p.daemons| < 0x1_0000
    && forall i :: 0 <= i < |p.daemons| ==> DaemonOk(p.daemons[i])
  }

  // ----- writing

  function PutMemb(m: MembId): (b: seq<Byte>)
    requires MembOk(m)
    ensures |b| == 8
  {
    PutInt(m.proc) + PutInt(m.time)
  }

  function PutNames(ns: seq<Name>): seq<Byte> {
    if ns == [] then [] else ns[0] + PutNames(ns[1..])
  }

  function PutDaemon(d: DaemonPart): seq<Byte>
    requires DaemonOk(d)
  {
    PutInt(d.proc) + PutMemb(d.memb) + Put(|d.members|, 2) + PutNames(d.members)
  }

  function PutDaemons(ds: seq<DaemonPart>): seq<Byte>
    requires forall i :: 0 <= i < |ds| ==> DaemonOk(ds[i])
  {
    if ds == [] then [] else PutDaemon(ds[0]) + PutDaemons(ds[1..])
  }

  function PutPart(p: GroupPart): seq<Byte>
    requires PartOk(p)
  {
    p.name + PutMemb(p.id.memb) + PutInt(p.id.index) + Put(if p.changed then 1 else 0, 2) + Put(|p.daemons|, 2)
    + PutDaemons(p.daemons)
  }

  function PutParts(ps: seq<GroupPart>): seq<Byte>
    requires forall i :: 0 <= i < |ps| ==> PartOk(ps[i])
  {
    if ps == [] then [] else PutPart(ps[0]) + PutParts(ps[1..])
  }

  // ----- reading, as G_mess_to_groups does

  function TakeMemb(b: seq<Byte>): Option<Read<MembId>> {
    if |b| < 8 then None else Some(Read(MembId(GetInt(b[..4]), GetInt(b[4..8])), b[8..]))
  }

  function TakeNames(b: seq<Byte>, n: nat): Option<Read<seq<Name>>>
    decreases n
  {
    if n == 0 then Some(Read([], b))
    else if |b| < MAX_GROUP_NAME then None
    else
      match TakeNames(b[MAX_GROUP_NAME..], n - 1)
      case None => None
      case Some(r) => Some(Read([b[..MAX_GROUP_NAME]] + r.value, r.rest))
  }

  function TakeDaemon(b: seq<Byte>): Option<Read<DaemonPart>> {
    if |b| < DAEMON_INFO_SIZE then None
    else
      match TakeNames(b[14..], Get(b[12..14]))
      case None => None
      case Some(r) => Some(Read(DaemonPart(GetInt(b[..4]), MembId(GetInt(b[4..8]), GetInt(b[8..12])), r.value), r.rest))
  }

  function TakeDaemons(b: seq<Byte>, n: nat): Option<Read<seq<DaemonPart>>>
    decreases n
  {
    if n == 0 then Some(Read([], b))
    else
      match TakeDaemon(b)
      case None => None
      case Some(d) =>
        match TakeDaemons(d.rest, n - 1)
        case None => None
        case Some(r) => Some(Read([d.value] + r.value, r.rest))
  }

  function TakePart(b: seq<Byte>): Option<Read<GroupPart>> {
    if |b| < GROUP_INFO_SIZE then None
    else
      match TakeDaemons(b[48..], Get(b[46..48]))
      case None => None
      case Some(r) =>
        Some(Read(GroupPart(b[..32], GroupId(MembId(GetInt(b[32..36]), GetInt(b[36..40])), GetInt(b[40..44])),
                            Get(b[44..46]) != 0, r.value), r.rest))
  }

  function TakeParts(b: seq<Byte>): Option<seq<GroupPart>>
    decreases |b|
  {
    if b == [] then Some([])
    else
      match TakePart(b)
      case None => None
      case Some(p) =>
        if |p.rest| >= |b| then None
        else
          match TakeParts(p.rest)
          case None => None
          case Some(ps) => Some([p.value] + ps)
  }

  // ----- the round trip

  lemma Associative(a: seq<Byte>, b: seq<Byte>, c: seq<Byte>)
    ensures a + b + c == a + (b + c)
  {
  }

  lemma {:induction false} NamesBack(ns: seq<Name>, rest: seq<Byte>)
    requires forall i :: 0 <= i < |ns| ==> |ns[i]| == MAX_GROUP_NAME
    ensures TakeNames(PutNames(ns) + rest, |ns|) == Some(Read(ns, rest))
  {
    if ns == [] {
      assert PutNames(ns) + rest == rest;
    } else {
      var b := PutNames(ns) + rest;
      assert b == ns[0] + (PutNames(ns[1..]) + rest);
      assert b[..MAX_GROUP_NAME] == ns[0] && b[MAX_GROUP_NAME..] == PutNames(ns[1..]) + rest;
      NamesBack(ns[1..], rest);
      assert [ns[0]] + ns[1..] == ns;
    }
  }

  lemma Fields4(a: seq<Byte>, b: seq<Byte>, c: seq<Byte>, d: seq<Byte>, rest: seq<Byte>)
    requires |a| == 4 && |b| == 4 && |c| == 4 && |d| == 2
    ensures
      var s := a + (b + c) + d + rest;
      s[..4] == a && s[4..8] == b && s[8..12] == c && s[12..14] == d && s[14..] == rest
  {
  }

  lemma DaemonBack(d: DaemonPart, rest: seq<Byte>)
    requires DaemonOk(d)
    ensures TakeDaemon(PutDaemon(d) + rest) == Some(Read(d, rest))
  {
    var names := PutNames(d.members) + rest;
    assert PutDaemon(d) + rest == PutInt(d.proc) + PutMemb(d.memb) + Put(|d.members|, 2) + names;
    Fields4(PutInt(d.proc), PutInt(d.memb.proc), PutInt(d.memb.time), Put(|d.members|, 2), names);
    GetPutInt(d.proc);
    GetPutInt(d.memb.proc);
    GetPutInt(d.memb.time);
    GetPut2(|d.members|);
    NamesBack(d.members, rest);
    hide PutInt, GetInt, Put, Get, PutNames, TakeNames;
  }

  lemma {:induction false} DaemonsBack(ds: seq<DaemonPart>, rest: seq<Byte>)
    requires forall i :: 0 <= i < |ds| ==> DaemonOk(ds[i])
    ensures TakeDaemons(PutDaemons(ds) + rest, |ds|) == Some(Read(ds, rest))
  {
    hide PutDaemon, TakeDaemon, DaemonOk;
    if ds == [] {
      assert PutDaemons(ds) + rest == rest;
    } else {
      assert PutDaemons(ds) + rest == PutDaemon(ds[0]) + (PutDaemons(ds[1..]) + rest);
      DaemonBack(ds[0], PutDaemons(ds[1..]) + rest);
      DaemonsBack(ds[1..], rest);
      assert [ds[0]] + ds[1..] == ds;
    }
  }

  lemma Fields6(n: seq<Byte>, a: seq<Byte>, b: seq<Byte>, c: seq<Byte>, d: seq<Byte>, e: seq<Byte>, rest: seq<Byte>)
    requires |n| == 32 && |a| == 4 && |b| == 4 && |c| == 4 && |d| == 2 && |e| == 2
    ensures
      var s := n + (a + b) + c + d + e + rest;
      && s[..32] == n && s[32..36] == a && s[36..40] == b && s[40..44] == c && s[44..46] == d && s[46..48] == e
      && s[48..] == rest
  {
  }

  lemma PartBack(p: GroupPart, rest: seq<Byte>)
    requires PartOk(p)
    ensures TakePart(PutPart(p) + rest) == Some(Read(p, rest))
  {
    var ds, flag := PutDaemons(p.daemons) + rest, if p.changed then 1 else 0;
    assert PutPart(p) + rest
           == p.name + PutMemb(p.id.memb) + PutInt(p.id.index) + Put(flag, 2) + Put(|p.daemons|, 2) + ds;
    Fields6(p.name, PutInt(p.id.memb.proc), PutInt(p.id.memb.time), PutInt(p.id.index), Put(flag, 2), Put(|p.daemons|, 2), ds);
    GetPutInt(p.id.memb.proc);
    GetPutInt(p.id.memb.time);
    GetPutInt(p.id.index);
    GetPut2(flag);
    GetPut2(|p.daemons|);
    DaemonsBack(p.daemons, rest);
    hide PutInt, GetInt, Put, Get, PutDaemons, TakeDaemons;
  }

  /** Reading the bytes of any list of groups gives that list back. */
  lemma {:induction false} PartsBack(ps: seq<GroupPart>)
    requires forall i :: 0 <= i < |ps| ==> PartOk(ps[i])
    ensures TakeParts(PutParts(ps)) == Some(ps)
  {
    if ps != [] {
      PartBack(ps[0], PutParts(ps[1..]));
      PartSize(ps[0]);
      hide PutPart, TakePart, PartOk;
      PartsBack(ps[1..]);
      assert [ps[0]] + ps[1..] == ps;
    }
  }

  // ----- the sizes that were counted are the bytes written

  lemma {:induction false} NamesSize(ns: seq<Name>)
    requires forall i :: 0 <= i < |ns| ==> |ns[i]| == MAX_GROUP_NAME
    ensures |PutNames(ns)| == |ns| * MAX_GROUP_NAME
  {
    if ns != [] {
      NamesSize(ns[1..]);
    }
  }

  lemma {:induction false} DaemonsBytes(ds: seq<DaemonPart>)
    requires forall i :: 0 <= i < |ds| ==> DaemonOk(ds[i])
    ensures |PutDaemons(ds)| == DaemonsSize(ds)
  {
    if ds != [] {
      DaemonsBytes(ds[1..]);
      DaemonsSizeFront(ds);
      NamesSize(ds[0].members);
      hide PutNames, DaemonsSize;
    }
  }

  lemma PartSize(p: GroupPart)
    requires PartOk(p)
    ensures |PutPart(p)| == GROUP_INFO_SIZE + DaemonsSize(p.daemons)
  {
    DaemonsBytes(p.daemons);
    hide PutDaemons, DaemonsSize;
  }

  // ----- packet bodies

  const PACKET_BODY := 1436

  function Chunks(b: seq<Byte>): seq<seq<Byte>>
    decreases |b|
  {
    if |b| <= PACKET_BODY then [b] else [b[..PACKET_BODY]] + Chunks(b[PACKET_BODY..])
  }

  function Glue(cs: seq<seq<Byte>>): seq<Byte> {
    if cs == [] then [] else cs[0] + Glue(cs[1..])
  }

  /** A message cut into packet bodies: none too long, none empty, glued together the message
      again. */
  lemma {:induction false} ChunksExact(b: seq<Byte>)
    requires b != []
    ensures Glue(Chunks(b)) == b && |Chunks(b)| == (|b| - 1) / PACKET_BODY + 1
    ensures forall i :: 0 <= i < |Chunks(b)| ==> 0 < |Chunks(b)[i]| <= PACKET_BODY
    decreases |b|
  {
    if |b| > PACKET_BODY {
      ChunksExact(b[PACKET_BODY..]);
      assert Chunks(b)[1..] == Chunks(b[PACKET_BODY..]);
      assert b[..PACKET_BODY] + b[PACKET_BODY..] == b;
    } else {
      assert Glue([b]) == b + Glue([]);
    }
  }

  /** Message_Buffer_to_Message_Fragments: the header is in the first element already. */
  method Fragment(header: seq<Byte>, buf: seq<Byte>) returns (elements: seq<seq<Byte>>)
    requires |header| == DATA_HEADER_SIZE
    ensures elements == Chunks(header + buf)
  {
    ChunksExact(header + buf);
    var count := (|buf| + |header| - 1) / PACKET_BODY + 1;
    var copied := |buf|;
    if copied > PACKET_BODY - |header| {
      copied := PACKET_BODY - |header|;
    }
    elements := [header + buf[..copied]];
    FirstChunk(header, buf, copied);
    for i := 1 to count
      invariant |elements| == i && copied <= |buf|
      invariant copied < |buf| ==> elements + Chunks(buf[copied..]) == Chunks(header + buf)
      invariant copied == |buf| ==> elements == Chunks(header + buf)
    {
      assert copied < |buf|;
      var n := |buf| - copied;
      if n > PACKET_BODY {
        n := PACKET_BODY;
      }
      ghost var all, left := elements, buf[copied..];
      elements := elements + [buf[copied..copied + n]];
      assert left[..n] == buf[copied..copied + n];
      assert left[n..] == buf[copied + n..];
      assert n < |left| ==> all + ([left[..n]] + Chunks(left[n..])) == elements + Chunks(left[n..]);
      assert n == |left| ==> left[..n] == left;
      copied := copied + n;
    }
  }

  lemma FirstChunk(header: seq<Byte>, buf: seq<Byte>, copied: nat)
    requires |header| == DATA_HEADER_SIZE && copied <= |buf|
    requires copied == |buf| <= PACKET_BODY - |header| || copied == PACKET_BODY - |header| < |buf|
    ensures copied == |buf| ==> Chunks(header + buf) == [header + buf[..copied]]
    ensures copied < |buf| ==> Chunks(header + buf) == [header + buf[..copied]] + Chunks(buf[copied..])
  {
    var b := header + buf;
    if copied < |buf| {
      assert b[..PACKET_BODY] == header + buf[..copied];
      assert b[PACKET_BODY..] == buf[copied..];
    } else {
      assert buf[..copied] == buf;
    }
  }
}

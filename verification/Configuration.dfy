/** Configurations and memberships: the daemons of each segment, in configuration order. */
module Configuration {
  import opened Outcomes

  /** segments[i].procs, as processor ids. */
  type Conf = seq<seq<int>>

  function Flatten(c: Conf): seq<int> {
    if c == [] then [] else c[0] + Flatten(c[1..])
  }

  ghost predicate Distinct(s: seq<int>) {
    forall i, j :: 0 <= i < j < |s| ==> s[i] != s[j]
  }

  /** Conf_leader: the first daemon of the first segment that has any. */
  function Leader(c: Conf): Option<int> {
    if c == [] then None
    else if c[0] != [] then Some(c[0][0])
    else Leader(c[1..])
  }

  /** Conf_last. */
  function Last(c: Conf): Option<int> {
    if c == [] then None
    else
      var s := c[|c| - 1];
      if s != [] then Some(s[|s| - 1]) else Last(c[..|c| - 1])
  }

  /** Conf_id_in_seg: the position of id, or -1. */
  function IndexIn(s: seq<int>, id: int): (i: int)
    ensures -1 <= i < |s| && (i >= 0 ==> s[i] == id) && (i < 0 <==> id !in s)
  {
    if s == [] then -1
    else if s[0] == id then 0
    else
      var i := IndexIn(s[1..], id);
      if i < 0 then -1 else i + 1
  }

  /** Conf_id_in_conf: the segment of id, or -1. */
  function SegmentOf(c: Conf, id: int): (i: int)
    ensures -1 <= i < |c| && (i >= 0 ==> id in c[i])
  {
    if c == [] then -1
    else if id in c[0] then 0
    else
      var i := SegmentOf(c[1..], id);
      if i < 0 then -1 else i + 1
  }

  predicate InConf(c: Conf, id: int) {
    SegmentOf(c, id) >= 0
  }

  lemma {:induction false} FlattenAppend(a: Conf, b: Conf)
    ensures Flatten(a + b) == Flatten(a) + Flatten(b)
  {
    if a == [] {
      assert a + b == b;
    } else {
      assert (a + b)[1..] == a[1..] + b;
      FlattenAppend(a[1..], b);
    }
  }

  lemma Associative(a: seq<int>, b: seq<int>, c: seq<int>)
    ensures a + (b + c) == a + b + c
  {
  }

  lemma Parts(c: Conf, s: nat)
    requires s < |c|
    ensures c == c[..s] + ([c[s]] + c[s + 1..])
  {
  }

  lemma FlattenSplit(c: Conf, s: nat)
    requires s < |c|
    ensures Flatten(c) == Flatten(c[..s]) + c[s] + Flatten(c[s + 1..])
  {
    hide *;
    var a, x, b := c[..s], c[s], c[s + 1..];
    Parts(c, s);
    FlattenOne(x, b);
    FlattenAppend(a, [x] + b);
    Associative(Flatten(a), x, Flatten(b));
  }

  lemma {:induction false} FlattenEmpty(c: Conf)
    requires forall i :: 0 <= i < |c| ==> c[i] == []
    ensures Flatten(c) == []
  {
    if c != [] {
      FlattenEmpty(c[1..]);
    }
  }

  lemma FlattenOne(x: seq<int>, b: Conf)
    ensures Flatten([x] + b) == x + Flatten(b)
  {
    assert ([x] + b)[1..] == b;
  }

  /** The leader is the first of all, the last one the last of all. */
  lemma {:induction false} LeaderIsFirst(c: Conf)
    ensures Leader(c) == if Flatten(c) == [] then None else Some(Flatten(c)[0])
  {
    if c != [] && c[0] == [] {
      LeaderIsFirst(c[1..]);
    }
  }

  lemma {:induction false} LastIsLast(c: Conf)
    ensures Last(c) == if Flatten(c) == [] then None else Some(Flatten(c)[|Flatten(c)| - 1])
  {
    if c != [] {
      var n := |c| - 1;
      FlattenSplit(c, n);
      assert Flatten(c[n + 1..]) == [];
      LastIsLast(c[..n]);
      hide Flatten;
    }
  }

  lemma {:induction false} InConfMeans(c: Conf, id: int)
    ensures InConf(c, id) <==> id in Flatten(c)
  {
    if c != [] {
      InConfMeans(c[1..], id);
    }
  }
}

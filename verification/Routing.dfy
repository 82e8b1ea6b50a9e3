/** Where a daemon sends the token: each computes its successor on its own from the membership, and
    together the successors form the ring in configuration order. */
module Routing {
  import opened Outcomes
  import opened Configuration

  /** The first daemon of every segment that has any. */
  function Firsts(c: Conf): seq<int> {
    if c == [] then []
    else (if c[0] == [] then [] else [c[0][0]]) + Firsts(c[1..])
  }

  /** Token_address, for the daemon at position i of segment s. */
  function TokenAddress(memb: Conf, s: nat, i: nat): int
    requires s < |memb| && i < |memb[s]|
  {
    var addresses, next := Firsts(memb[..s]) + Firsts(memb[s + 1..]), |Firsts(memb[..s])|;
    if i < |memb[s]| - 1 then memb[s][i + 1]
    else if addresses == [] then memb[s][0]
    else if |addresses| == next then addresses[0]
    else addresses[next]
  }

  lemma {:induction false} FirstsFlatten(c: Conf)
    ensures Firsts(c) == [] <==> Flatten(c) == []
    ensures Firsts(c) != [] ==> Firsts(c)[0] == Flatten(c)[0]
  {
    if c != [] {
      FirstsFlatten(c[1..]);
    }
  }

  /** The next of n positions on a cycle. */
  function After(k: nat, n: nat): (r: nat)
    requires k < n
    ensures r < n
  {
    if k + 1 == n then 0 else k + 1
  }

  /** The successors form one cycle, in the order of the concatenated segments. */
  lemma SuccessorInOrder(memb: Conf, s: nat, i: nat)
    requires s < |memb| && i < |memb[s]|
    ensures
      var all, k := Flatten(memb), |Flatten(memb[..s])| + i;
      && k < |all| && all[k] == memb[s][i]
      && TokenAddress(memb, s, i) == all[After(k, |all|)]
  {
    hide Flatten, Firsts;
    FlattenSplit(memb, s);
    FirstsFlatten(memb[..s]);
    FirstsFlatten(memb[s + 1..]);
    Successor(Firsts(memb[..s]), Firsts(memb[s + 1..]), Flatten(memb[..s]), memb[s], Flatten(memb[s + 1..]), i);
  }

  /** The same, on what comes before and after the daemon's segment. */
  lemma Successor(fa: seq<int>, fb: seq<int>, a: seq<int>, mine: seq<int>, b: seq<int>, i: nat)
    requires i < |mine|
    requires (fa == [] <==> a == []) && (fa != [] ==> fa[0] == a[0])
    requires (fb == [] <==> b == []) && (fb != [] ==> fb[0] == b[0])
    ensures
      var all, k, addresses := a + mine + b, |a| + i, fa + fb;
      && all[k] == mine[i]
      && all[After(k, |all|)] == (if i < |mine| - 1 then mine[i + 1]
                                  else if addresses == [] then mine[0]
                                  else if |addresses| == |fa| then addresses[0]
                                  else addresses[|fa|])
  {
    if i == |mine| - 1 && b == [] && a == [] {
      assert (a + mine + b)[0] == mine[0];
    }
  }

  /** The first daemons of segments 0..i-1, our own segment left out. */
  function FirstsBefore(memb: Conf, own: nat, i: nat): seq<int>
    requires own < |memb| && i <= |memb|
  {
    if i <= own then Firsts(memb[..i]) else Firsts(memb[..own]) + Firsts(memb[own + 1..i])
  }

  lemma FirstsNext(memb: Conf, own: nat, i: nat)
    requires own < |memb| && i < |memb|
    ensures FirstsBefore(memb, own, i + 1)
         == FirstsBefore(memb, own, i) + (if i == own || memb[i] == [] then [] else [memb[i][0]])
  {
    if i < own {
      FirstsExtends(memb[..i], memb[i]);
      assert memb[..i + 1] == memb[..i] + [memb[i]];
    } else if i == own {
      assert memb[own + 1..i + 1] == [];
    } else {
      FirstsExtends(memb[own + 1..i], memb[i]);
      assert memb[own + 1..i + 1] == memb[own + 1..i] + [memb[i]];
    }
  }

  lemma FirstsEnds(memb: Conf, own: nat)
    requires own < |memb|
    ensures FirstsBefore(memb, own, 0) == []
    ensures FirstsBefore(memb, own, own) == Firsts(memb[..own])
    ensures FirstsBefore(memb, own, |memb|) == Firsts(memb[..own]) + Firsts(memb[own + 1..])
  {
    assert memb[own + 1..|memb|] == memb[own + 1..];
  }

  /** The variables of network.c that Net_set_membership computes. */
  class Net {
    const segment: nat
    const id: int
    var sendAddress: seq<int>
    var tokenAddress: int
    var segmentLeader: bool

    constructor (segment: nat, id: int)
      ensures this.segment == segment && this.id == id
    {
      this.segment, this.id := segment, id;
      sendAddress, tokenAddress, segmentLeader := [], 0, false;
    }

    /** Fails when this daemon is not in the membership. */
    method SetMembership(memb: Conf) returns (ok: bool)
      requires segment < |memb|
      modifies this
      ensures ok <==> id in memb[segment]
      ensures ok ==> sendAddress == Firsts(memb[..segment]) + Firsts(memb[segment + 1..])
      ensures ok ==> tokenAddress == TokenAddress(memb, segment, IndexIn(memb[segment], id))
      ensures ok ==> (segmentLeader <==> memb[segment][0] == id)
    {
      hide *;
      var mine := memb[segment];
      var index := IndexIn(mine, id);
      if index < 0 {
        return false;
      }
      var addresses, next := [], -1;
      FirstsEnds(memb, segment);
      for i := 0 to |memb|
        invariant addresses == FirstsBefore(memb, segment, i)
        invariant next == if i <= segment then -1 else |Firsts(memb[..segment])|
      {
        FirstsNext(memb, segment, i);
        if i == segment {
          next := |addresses|;
        } else if |memb[i]| > 0 {
          addresses := addresses + [memb[i][0]];
        }
      }
      TokenAddressIs(memb, segment, index);
      IndexZero(mine, id);
      sendAddress, segmentLeader := addresses, index == 0;
      if index < |mine| - 1 {
        tokenAddress := mine[index + 1];
      } else if |addresses| == 0 {
        tokenAddress := mine[0];
      } else if |addresses| == next {
        tokenAddress := addresses[0];
      } else {
        tokenAddress := addresses[next];
      }
      return true;
    }
  }

  lemma TokenAddressIs(memb: Conf, s: nat, i: nat)
    requires s < |memb| && i < |memb[s]|
    ensures
      var addresses, next := Firsts(memb[..s]) + Firsts(memb[s + 1..]), |Firsts(memb[..s])|;
      TokenAddress(memb, s, i) == if i < |memb[s]| - 1 then memb[s][i + 1]
                                  else if addresses == [] then memb[s][0]
                                  else if |addresses| == next then addresses[0]
                                  else addresses[next]
  {
  }

  lemma FirstsCons(s: seq<int>, c: Conf)
    ensures Firsts([s] + c) == (if s == [] then [] else [s[0]]) + Firsts(c)
  {
    assert ([s] + c)[1..] == c;
  }

  lemma {:induction false} FirstsExtends(c: Conf, s: seq<int>)
    ensures Firsts(c + [s]) == Firsts(c) + (if s == [] then [] else [s[0]])
  {
    if c == [] {
      assert c + [s] == [s] && [s][1..] == [];
    } else {
      FirstsExtends(c[1..], s);
      assert c + [s] == [c[0]] + (c[1..] + [s]);
      FirstsCons(c[0], c[1..]);
      FirstsCons(c[0], c[1..] + [s]);
      assert c == [c[0]] + c[1..];
      hide Firsts;
    }
  }

  lemma IndexZero(s: seq<int>, id: int)
    requires id in s
    ensures IndexIn(s, id) == 0 <==> s[0] == id
  {
  }

  // ----- the second form token

  /** Read_form2 builds the membership from the member list of the token, segment by segment. */
  function Build(cn: Conf, members: seq<int>): (memb: Conf)
    ensures |memb| == |cn|
  {
    if members == [] then seq(|cn|, i => [])
    else
      var n := |members| - 1;
      var memb, s := Build(cn, members[..n]), SegmentOf(cn, members[n]);
      if s < 0 then memb else memb[s := memb[s] + [members[n]]]
  }

  /** In configuration order of segments. */
  ghost predicate BySegment(cn: Conf, members: seq<int>) {
    && (forall i :: 0 <= i < |members| ==> InConf(cn, members[i]))
    && (forall i, j :: 0 <= i < j < |members| ==> SegmentOf(cn, members[i]) <= SegmentOf(cn, members[j]))
  }

  /** A daemon of the last segment in use goes to the end. */
  lemma AppendLast(memb: Conf, s: nat, x: int)
    requires s < |memb| && forall j :: s < j < |memb| ==> memb[j] == []
    ensures Flatten(memb[s := memb[s] + [x]]) == Flatten(memb) + [x]
  {
    var built := memb[s := memb[s] + [x]];
    FlattenEmpty(memb[s + 1..]);
    hide Flatten;
    FlattenSplit(memb, s);
    FlattenSplit(built, s);
    assert built[..s] == memb[..s] && built[s + 1..] == memb[s + 1..];
  }

  ghost predicate Placed(cn: Conf, members: seq<int>, memb: Conf)
    requires |memb| == |cn|
  {
    forall s, x :: 0 <= s < |cn| && x in memb[s] ==> x in members && SegmentOf(cn, x) == s
  }

  lemma LaterEmpty(cn: Conf, members: seq<int>, memb: Conf, x: int)
    requires |memb| == |cn| && Placed(cn, members, memb)
    requires forall i :: 0 <= i < |members| ==> SegmentOf(cn, members[i]) <= SegmentOf(cn, x)
    ensures forall j :: 0 <= j < |memb| && SegmentOf(cn, x) < j ==> memb[j] == []
  {
    hide SegmentOf;
    assert forall y :: y in members ==> SegmentOf(cn, y) <= SegmentOf(cn, x);
    forall j | 0 <= j < |memb| && SegmentOf(cn, x) < j
      ensures memb[j] == []
    {
      NoneThere(memb[j], members, y => SegmentOf(cn, y), SegmentOf(cn, x), j);
    }
  }

  lemma NoneThere(s: seq<int>, members: seq<int>, place: int -> int, bound: int, j: int)
    requires forall y :: y in s ==> y in members && place(y) == j
    requires forall y :: y in members ==> place(y) <= bound
    requires bound < j
    ensures s == []
  {
    assert |s| > 0 ==> s[0] in s;
    assert forall y :: y in members ==> place(y) != j;
    assert forall y :: y !in s;
  }

  lemma PlacedMore(cn: Conf, members: seq<int>, memb: Conf, x: int)
    requires |memb| == |cn| && Placed(cn, members, memb) && InConf(cn, x)
    ensures var s := SegmentOf(cn, x); Placed(cn, members + [x], memb[s := memb[s] + [x]])
  {
    hide SegmentOf;
  }

  /** The membership built from a sorted list is that list again; who is in a segment is what the
      configuration says. */
  lemma {:induction false} BuildKeepsOrder(cn: Conf, members: seq<int>)
    requires BySegment(cn, members)
    ensures Flatten(Build(cn, members)) == members
    ensures Placed(cn, members, Build(cn, members))
  {
    if members == [] {
      FlattenEmpty(Build(cn, members));
    } else {
      hide *;
      var n := |members| - 1;
      var x, rest := members[n], members[..n];
      LastOfOrder(cn, members);
      BuildKeepsOrder(cn, rest);
      var memb, s := Build(cn, rest), SegmentOf(cn, x);
      LaterEmpty(cn, rest, memb, x);
      AppendLast(memb, s, x);
      PlacedMore(cn, rest, memb, x);
    }
  }

  /** The last member of a sorted list, and what Build does with it. */
  lemma LastOfOrder(cn: Conf, members: seq<int>)
    requires members != [] && BySegment(cn, members)
    ensures
      var n := |members| - 1;
      var x, rest := members[n], members[..n];
      && members == rest + [x] && BySegment(cn, rest) && InConf(cn, x)
      && 0 <= SegmentOf(cn, x) < |cn|
      && Build(cn, members) == Build(cn, rest)[SegmentOf(cn, x) := Build(cn, rest)[SegmentOf(cn, x)] + [x]]
      && forall i :: 0 <= i < |rest| ==> SegmentOf(cn, rest[i]) <= SegmentOf(cn, x)
  {
    assert InConf(cn, members[|members| - 1]);
  }

  /** The successor that a member computes from the membership. */
  function NextOf(memb: Conf, id: int): Option<int> {
    var s := SegmentOf(memb, id);
    if s < 0 then None
    else Some(TokenAddress(memb, s, IndexIn(memb[s], id)))
  }

  /** The daemon that the second form token reaches after k hops from the first member. */
  function Hop(cn: Conf, members: seq<int>, k: nat): Option<int>
    requires members != []
  {
    if k == 0 then Some(members[0])
    else
      match Hop(cn, members, k - 1)
      case None => None
      case Some(at) => NextOf(Build(cn, members), at)
  }

  lemma NextInOrder(memb: Conf, k: nat)
    requires Distinct(Flatten(memb)) && k < |Flatten(memb)|
    ensures NextOf(memb, Flatten(memb)[k]) == Some(Flatten(memb)[After(k, |Flatten(memb)|)])
  {
    var all, id := Flatten(memb), Flatten(memb)[k];
    InConfMeans(memb, id);
    var s := SegmentOf(memb, id);
    var i := IndexIn(memb[s], id);
    SuccessorInOrder(memb, s, i);
    var j := |Flatten(memb[..s])| + i;
    assert all[j] == id == all[k];
    assert j == k;
  }

  /** The second form token reaches every member exactly once, in the order of the list, each time
      with that member next on the list, so it always passes the validity check; exactly the last
      one takes itself for Conf_last and sends the first regular token instead. */
  lemma {:induction false} Form2ReachesEveryone(cn: Conf, members: seq<int>, k: nat)
    requires BySegment(cn, members) && Distinct(members) && k < |members|
    ensures Hop(cn, members, k) == Some(members[k])
    ensures Last(Build(cn, members)) == Some(members[k]) <==> k == |members| - 1
    ensures Leader(Build(cn, members)) == Some(members[k]) <==> k == 0
    decreases k
  {
    var memb := Build(cn, members);
    hide Flatten, Build, NextOf, Last, Leader, SegmentOf;
    BuildKeepsOrder(cn, members);
    LastIsLast(memb);
    LeaderIsFirst(memb);
    assert members[k] == members[|members| - 1] ==> k == |members| - 1;
    assert members[k] == members[0] ==> k == 0;
    if k > 0 {
      Form2ReachesEveryone(cn, members, k - 1);
      NextInOrder(memb, k - 1);
    }
  }

  // ----- sorting the member list

  /** The place of a daemon in the configuration. */
  predicate Precedes(cn: Conf, a: int, b: int) {
    var s, t := SegmentOf(cn, a), SegmentOf(cn, b);
    s < t || (s == t && s >= 0 && IndexIn(cn[s], a) < IndexIn(cn[s], b))
  }

  /** Smallest_member. */
  method SmallestMember(cn: Conf, members: seq<int>) returns (index: nat)
    requires members != [] && forall i :: 0 <= i < |members| ==> InConf(cn, members[i])
    ensures index < |members|
    ensures forall i :: 0 <= i < |members| ==> !Precedes(cn, members[i], members[index])
    ensures forall i :: 0 <= i < |members| ==>
              var s, t := SegmentOf(cn, members[index]), SegmentOf(cn, members[i]);
              s < t || (0 <= s == t && IndexIn(cn[s], members[index]) <= IndexIn(cn[s], members[i]))
  {
    index := 0;
    for i := 1 to |members|
      invariant index < i
      invariant forall j :: 0 <= j < i ==> !Precedes(cn, members[j], members[index])
    {
      if Precedes(cn, members[i], members[index]) {
        index := i;
      }
    }
  }

  /** Sort_members: repeatedly takes the smallest of the rest, filling its place with the last. */
  method SortMembers(cn: Conf, members: seq<int>) returns (sorted: seq<int>)
    requires Distinct(members) && forall i :: 0 <= i < |members| ==> InConf(cn, members[i])
    ensures multiset(sorted) == multiset(members)
    ensures InOrder(cn, sorted)
    ensures forall i, j :: 0 <= i < j < |sorted| ==>
              var s, t := SegmentOf(cn, sorted[i]), SegmentOf(cn, sorted[j]);
              s < t || (0 <= s == t && IndexIn(cn[s], sorted[i]) <= IndexIn(cn[s], sorted[j]))
  {
    hide *;
    sorted := [];
    var rest := members;
    SortStarts(cn, members);
    while rest != []
      invariant Sorting(cn, members, sorted, rest)
      decreases |rest|
    {
      SortingMeans(cn, members, sorted, rest);
      var index := SmallestMember(cn, rest);
      TakeSmallest(cn, members, sorted, rest, index);
      sorted, rest := sorted + [rest[index]], Left(rest, index);
    }
    SortingMeans(cn, members, sorted, rest);
    assert sorted + [] == sorted;
    InOrderMeans(cn, sorted);
  }

  lemma InOrderMeans(cn: Conf, sorted: seq<int>)
    requires forall i :: 0 <= i < |sorted| ==> InConf(cn, sorted[i])
    ensures InOrder(cn, sorted) <==>
            forall i, j :: 0 <= i < j < |sorted| ==>
              var s, t := SegmentOf(cn, sorted[i]), SegmentOf(cn, sorted[j]);
              s < t || (0 <= s == t && IndexIn(cn[s], sorted[i]) <= IndexIn(cn[s], sorted[j]))
  {
  }

  /** Member k leaves; the last one takes its place. */
  function Left(s: seq<int>, k: nat): (r: seq<int>)
    requires k < |s|
    ensures |r| == |s| - 1
  {
    var n := |s| - 1;
    if k == n then s[..n] else s[..n][k := s[n]]
  }

  ghost predicate Sorting(cn: Conf, members: seq<int>, sorted: seq<int>, rest: seq<int>) {
    && multiset(sorted + rest) == multiset(members)
    && (forall i :: 0 <= i < |rest| ==> InConf(cn, rest[i]))
    && (forall i :: 0 <= i < |sorted| ==> InConf(cn, sorted[i]))
    && InOrder(cn, sorted) && Before(cn, sorted, rest)
  }

  lemma SortStarts(cn: Conf, members: seq<int>)
    requires forall i :: 0 <= i < |members| ==> InConf(cn, members[i])
    ensures Sorting(cn, members, [], members)
  {
    assert [] + members == members;
  }

  lemma SortingMeans(cn: Conf, members: seq<int>, sorted: seq<int>, rest: seq<int>)
    requires Sorting(cn, members, sorted, rest)
    ensures multiset(sorted + rest) == multiset(members) && InOrder(cn, sorted)
    ensures forall i :: 0 <= i < |rest| ==> InConf(cn, rest[i])
    ensures forall i :: 0 <= i < |sorted| ==> InConf(cn, sorted[i])
  {
  }

  ghost predicate InOrder(cn: Conf, s: seq<int>) {
    forall i, j :: 0 <= i < j < |s| ==> !Precedes(cn, s[j], s[i])
  }

  ghost predicate Before(cn: Conf, s: seq<int>, t: seq<int>) {
    forall x, y :: x in s && y in t ==> !Precedes(cn, y, x)
  }

  lemma TakeSmallest(cn: Conf, members: seq<int>, sorted: seq<int>, rest: seq<int>, index: nat)
    requires Sorting(cn, members, sorted, rest) && index < |rest|
    requires forall i :: 0 <= i < |rest| ==> !Precedes(cn, rest[i], rest[index])
    ensures Sorting(cn, members, sorted + [rest[index]], Left(rest, index))
  {
    hide Precedes, InConf;
    TakeOut(sorted, rest, index);
    var left := Left(rest, index);
    assert forall j :: 0 <= j < |left| ==> left[j] in rest;
  }

  lemma TakeOut(sorted: seq<int>, s: seq<int>, k: nat)
    requires k < |s|
    ensures multiset(sorted + [s[k]] + Left(s, k)) == multiset(sorted + s)
  {
    var n := |s| - 1;
    assert s == s[..n] + [s[n]];
    if k != n {
      assert s[..n][k] == s[k];
    }
  }

  lemma PermutationDistinct(a: seq<int>, b: seq<int>)
    requires multiset(a) == multiset(b) && Distinct(a)
    ensures Distinct(b)
  {
    forall i, j | 0 <= i < j < |b|
      ensures b[i] != b[j]
    {
      if b[i] == b[j] {
        Twice(b, i, j);
        assert multiset(a)[b[i]] >= 2;
        Once(a, b[i]);
      }
    }
  }

  lemma Twice(b: seq<int>, i: nat, j: nat)
    requires i < j < |b| && b[i] == b[j]
    ensures multiset(b)[b[i]] >= 2
  {
    assert b == b[..j] + [b[j]] + b[j + 1..];
    assert b[i] in b[..j];
  }

  lemma {:induction false} Once(a: seq<int>, x: int)
    requires Distinct(a)
    ensures multiset(a)[x] <= 1
  {
    if a != [] {
      var n := |a| - 1;
      assert a == a[..n] + [a[n]];
      Once(a[..n], x);
      if a[n] == x {
        assert forall i :: 0 <= i < n ==> a[..n][i] == a[i];
        assert x !in a[..n];
      }
    }
  }

  /** Whatever order the members were gathered in, the token that Sort_members has prepared goes
      once around all of them. */
  method PrepareForm2(cn: Conf, members: seq<int>) returns (sorted: seq<int>)
    requires Distinct(members) && forall i :: 0 <= i < |members| ==> InConf(cn, members[i])
    ensures multiset(sorted) == multiset(members)
    ensures forall k :: 0 <= k < |sorted| ==> Hop(cn, sorted, k) == Some(sorted[k])
    ensures sorted != [] ==> Last(Build(cn, sorted)) == Some(sorted[|sorted| - 1])
    ensures forall k :: 0 <= k < |sorted| ==> NextOf(Build(cn, sorted), sorted[k]) == Some(sorted[After(k, |sorted|)])
  {
    sorted := SortMembers(cn, members);
    PermutationDistinct(members, sorted);
    forall i | 0 <= i < |sorted| ensures InConf(cn, sorted[i]) {
      assert sorted[i] in multiset(sorted);
      assert sorted[i] in members;
    }
    forall i, j | 0 <= i < j < |sorted| ensures SegmentOf(cn, sorted[i]) <= SegmentOf(cn, sorted[j]) {
      assert !Precedes(cn, sorted[j], sorted[i]);
    }
    BuildKeepsOrder(cn, sorted);
    forall k | 0 <= k < |sorted|
      ensures Hop(cn, sorted, k) == Some(sorted[k])
      ensures k == |sorted| - 1 ==> Last(Build(cn, sorted)) == Some(sorted[k])
      ensures NextOf(Build(cn, sorted), sorted[k]) == Some(sorted[After(k, |sorted|)])
    {
      Form2ReachesEveryone(cn, sorted, k);
      NextInOrder(Build(cn, sorted), k);
    }
  }
}

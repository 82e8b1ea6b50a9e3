/** Who forms the membership, and how the form token gathers it. */
module Election {
  import opened Outcomes
  import opened Configuration
  import opened Membership

  // ----- the smallest representative

  /** Neither comes before the other. */
  predicate Tied(cn: Conf, a: Rep, b: Rep) {
    !Better(cn, a, b) && !Better(cn, b, a)
  }

  ghost predicate Gathered(r: seq<Rep>) {
    r != [] && forall i :: 0 <= i < |r| ==> !r[i].kind.PotentialRep?
  }

  /** The representative that the holder of this list takes for the one to form the membership. */
  function Best(cn: Conf, r: seq<Rep>): (b: Rep)
    requires Gathered(r)
    ensures b in r && forall j :: 0 <= j < |r| ==> !Better(cn, r[j], b)
  {
    SmallestRepFacts(cn, r);
    r[SmallestRep(cn, r).value]
  }

  function Elected(cn: Conf, r: seq<Rep>): int
    requires Gathered(r)
  {
    Best(cn, r).id
  }

  /** Nobody else could be elected, in whatever order the list was gathered. */
  ghost predicate Undisputed(cn: Conf, r: seq<Rep>)
    requires Gathered(r)
  {
    forall i :: 0 <= i < |r| && Tied(cn, r[i], Best(cn, r)) ==> r[i].id == Elected(cn, r)
  }

  lemma BetterOrders(cn: Conf, a: Rep, b: Rep, c: Rep)
    requires !a.kind.PotentialRep? && !b.kind.PotentialRep? && !c.kind.PotentialRep?
    ensures !Better(cn, a, a)
    ensures !Better(cn, a, b) && !Better(cn, b, c) ==> !Better(cn, a, c)
  {
    hide Position;
  }

  lemma {:induction false} ScanStays(cn: Conf, r: seq<Rep>, i: nat)
    requires 0 < i <= |r| && Gathered(r) && forall j :: 0 <= j < |r| ==> !Better(cn, r[j], r[0])
    ensures Scan(cn, r, 0, i) == Outcome<nat>.Go(0)
    decreases |r| - i
  {
    hide Better;
    if i < |r| {
      ScanStays(cn, r, i + 1);
    }
  }

  lemma SamePermuted(r: seq<Rep>, r': seq<Rep>)
    requires multiset(r) == multiset(r')
    ensures forall x :: x in r <==> x in r'
  {
    assert forall x :: x in r <==> x in multiset(r);
    assert forall x :: x in r' <==> x in multiset(r');
  }

  lemma ElectionAgrees(cn: Conf, r: seq<Rep>, r': seq<Rep>)
    requires Gathered(r) && Gathered(r') && multiset(r) == multiset(r') && Undisputed(cn, r)
    ensures Elected(cn, r') == Elected(cn, r)
  {
    hide Better;
    SamePermuted(r, r');
    var b, b' := Best(cn, r), Best(cn, r');
    assert b in r' && b' in r;
    var j :| 0 <= j < |r| && r[j] == b';
    var j' :| 0 <= j' < |r'| && r'[j'] == b;
    assert !Better(cn, r[j], b);
    assert !Better(cn, r'[j'], b');
    assert Tied(cn, r[j], b);
  }

  /** Put entry k first. */
  function Swapped(r: seq<Rep>, k: nat): (r': seq<Rep>)
    requires k < |r|
    ensures |r'| == |r|
  {
    r[0 := r[k]][k := r[0]]
  }

  lemma SwapKeeps(r: seq<Rep>, k: nat)
    requires k < |r|
    ensures multiset(Swapped(r, k)) == multiset(r)
    ensures Gathered(r) ==> Gathered(Swapped(r, k))
    ensures forall x :: x in Swapped(r, k) ==> x in r
  {
    SamePermuted(r, Swapped(r, k));
  }

  lemma TieBreaks(cn: Conf, r: seq<Rep>, k: nat)
    requires Gathered(r) && k < |r| && Tied(cn, r[k], Best(cn, r)) && r[k].id != Elected(cn, r)
    ensures Gathered(Swapped(r, k)) && multiset(Swapped(r, k)) == multiset(r)
    ensures Elected(cn, Swapped(r, k)) == r[k].id
  {
    SwapKeeps(r, k);
    var best, r' := Best(cn, r), Swapped(r, k);
    forall j | 0 <= j < |r'|
      ensures !Better(cn, r'[j], r'[0])
    {
      assert r'[j] in r;
      var i :| 0 <= i < |r| && r[i] == r'[j];
      BetterOrders(cn, r[i], best, r[k]);
    }
    hide Better;
    ScanStays(cn, r', 1);
  }

  /** Daemons that have gathered the same representatives elect the same one, whatever the order
      in which they heard of them, if and only if no other daemon ties with it. (Smallest_rep
      compares two segment representatives by segment only, so two of one segment tie.) */
  lemma ElectionExactly(cn: Conf, r: seq<Rep>)
    requires Gathered(r)
    ensures Undisputed(cn, r) <==>
              forall r' :: Gathered(r') && multiset(r') == multiset(r) ==> Elected(cn, r') == Elected(cn, r)
  {
    hide Better;
    if Undisputed(cn, r) {
      forall r' | Gathered(r') && multiset(r') == multiset(r)
        ensures Elected(cn, r') == Elected(cn, r)
      {
        ElectionAgrees(cn, r, r');
      }
    } else {
      var k :| 0 <= k < |r| && Tied(cn, r[k], Best(cn, r)) && r[k].id != Elected(cn, r);
      TieBreaks(cn, r, k);
    }
  }

  // ----- who that is

  /** a is at or before b in the order of segments. Of two representatives of one segment that have
      formed rings, the one that comes first in the configuration is before the other. */
  predicate AtOrBefore(cn: Conf, a: Rep, b: Rep)
    requires 0 <= a.seg < |cn| && 0 <= b.seg < |cn|
  {
    match (a.kind, b.kind)
    case (SegRep, SegRep) => a.seg <= b.seg
    case (SegRep, RingRep) => true
    case (RingRep, RingRep) => a.seg < b.seg || (a.seg == b.seg && IndexIn(cn[a.seg], a.id) <= IndexIn(cn[b.seg], b.id))
    case _ => false
  }

  lemma KnownSegment(cn: Conf, a: Rep)
    requires SegmentOf(cn, a.id) == a.seg && InConf(cn, a.id)
    ensures 0 <= a.seg < |cn| && Position(cn, a.id) == IndexIn(cn[a.seg], a.id)
  {
  }

  lemma KnownSegments(cn: Conf, r: seq<Rep>)
    requires RepsKnown(cn, r)
    ensures forall i :: 0 <= i < |r| ==> 0 <= r[i].seg < |cn|
  {
    forall i | 0 <= i < |r|
      ensures 0 <= r[i].seg < |cn|
    {
      KnownSegment(cn, r[i]);
    }
  }

  lemma BetterMeans(cn: Conf, a: Rep, b: Rep)
    requires SegmentOf(cn, a.id) == a.seg && InConf(cn, a.id) && SegmentOf(cn, b.id) == b.seg && InConf(cn, b.id)
    requires !a.kind.PotentialRep? && !b.kind.PotentialRep?
    ensures 0 <= a.seg < |cn| && 0 <= b.seg < |cn| && (!Better(cn, a, b) <==> AtOrBefore(cn, b, a))
  {
    KnownSegment(cn, a);
    KnownSegment(cn, b);
    hide IndexIn, SegmentOf, Position, InConf;
  }

  /** The elected one of a list, and nobody before it in the list is its equal. If any segment
      representative is there, it is one with the least segment; otherwise it is of the least
      segment, and the first of that segment in the configuration. */
  lemma ElectedExactly(cn: Conf, r: seq<Rep>)
    requires Gathered(r) && RepsKnown(cn, r)
    ensures SmallestRep(cn, r).Go?
    ensures
      var k := SmallestRep(cn, r).value;
      && (forall j :: 0 <= j < |r| ==> 0 <= r[j].seg < |cn|)
      && (r[k].kind.SegRep? <==> exists j :: 0 <= j < |r| && r[j].kind.SegRep?)
      && (forall j :: 0 <= j < |r| && r[j].kind == r[k].kind ==> r[k].seg <= r[j].seg)
      && (r[k].kind.RingRep? ==> forall j :: 0 <= j < |r| && r[j].seg == r[k].seg ==>
            IndexIn(cn[r[k].seg], r[k].id) <= IndexIn(cn[r[j].seg], r[j].id))
      && (forall j :: 0 <= j < k ==> !AtOrBefore(cn, r[j], r[k]))
  {
    KnownSegments(cn, r);
    SmallestRepFacts(cn, r);
    ScanFirst(cn, r, 0, 1);
    var k := SmallestRep(cn, r).value;
    hide Better, SmallestRep, IndexIn, SegmentOf, InConf;
    forall j | 0 <= j < |r|
      ensures AtOrBefore(cn, r[k], r[j])
      ensures j < k ==> !AtOrBefore(cn, r[j], r[k])
    {
      BetterMeans(cn, r[j], r[k]);
      BetterMeans(cn, r[k], r[j]);
    }
  }

  /** The scan takes the first of those it could take. */
  lemma {:induction false} ScanFirst(cn: Conf, r: seq<Rep>, current: nat, i: nat)
    requires current < i <= |r| && Gathered(r)
    requires forall j :: 0 <= j < i ==> !Better(cn, r[j], r[current])
    requires forall j :: 0 <= j < current ==> Better(cn, r[current], r[j])
    ensures Scan(cn, r, current, i).Go?
    ensures var c := Scan(cn, r, current, i).value;
            forall j :: 0 <= j < c ==> Better(cn, r[c], r[j])
    decreases |r| - i
  {
    if i < |r| {
      var next := if Better(cn, r[i], r[current]) then i else current;
      forall j | 0 <= j < next
        ensures Better(cn, r[next], r[j])
      {
        if next == i {
          BetterOrders(cn, r[i], r[j], r[current]);
        }
      }
      forall j | 0 <= j < i + 1
        ensures !Better(cn, r[j], r[next])
      {
        BetterOrders(cn, r[j], r[current], r[next]);
        BetterOrders(cn, r[i], r[i], r[i]);
      }
      hide Better;
      ScanFirst(cn, r, next, i + 1);
    }
  }

  ghost predicate InOrder(cn: Conf, r: seq<Rep>) {
    && (forall i :: 0 <= i < |r| ==> 0 <= r[i].seg < |cn|)
    && forall i, j :: 0 <= i < j < |r| ==> AtOrBefore(cn, r[i], r[j])
  }

  lemma RestKnown(cn: Conf, r: seq<Rep>, k: nat)
    requires RepsKnown(cn, r) && k < |r|
    ensures RepsKnown(cn, r[k := r[|r| - 1]][..|r| - 1])
  {
    hide SegmentOf, InConf;
  }

  lemma HeadInOrder(cn: Conf, b: Rep, rest: seq<Rep>)
    requires InOrder(cn, rest) && 0 <= b.seg < |cn| && forall x :: x in rest ==> 0 <= x.seg < |cn| && AtOrBefore(cn, b, x)
    ensures InOrder(cn, [b] + rest)
  {
    hide AtOrBefore;
    var r := [b] + rest;
    forall i, j | 0 <= i < j < |r|
      ensures 0 <= r[i].seg < |cn| && 0 <= r[j].seg < |cn| && AtOrBefore(cn, r[i], r[j])
    {
      assert r[j] == rest[j - 1] && rest[j - 1] in rest;
      assert i > 0 ==> r[i] == rest[i - 1];
    }
  }

  /** Sort_reps sorts: segment representatives by segment, then the others by segment and by
      configuration. */
  lemma {:induction false} SortRepsSorts(cn: Conf, r: seq<Rep>)
    requires NoPotential(r) && RepsKnown(cn, r)
    ensures SortReps(cn, r).Go? && InOrder(cn, SortReps(cn, r).value)
    decreases |r|
  {
    if r != [] {
      var n := |r| - 1;
      SortRepsKeeps(cn, r);
      ElectedBefore(cn, r);
      hide Better, SmallestRep, AtOrBefore, InConf, SegmentOf;
      var k := SmallestRep(cn, r).value;
      var rest := r[k := r[n]][..n];
      NoPotentialRest(r, k);
      RestKnown(cn, r, k);
      SortRepsSorts(cn, rest);
      SortRepsKeeps(cn, rest);
      var sorted := SortReps(cn, rest).value;
      SamePermuted(sorted, rest);
      forall x | x in sorted
        ensures 0 <= x.seg < |cn| && AtOrBefore(cn, r[k], x)
      {
        assert x in rest;
        var j :| 0 <= j < |rest| && rest[j] == x;
      }
      HeadInOrder(cn, r[k], sorted);
    }
  }

  lemma ElectedBefore(cn: Conf, r: seq<Rep>)
    requires Gathered(r) && RepsKnown(cn, r)
    ensures SmallestRep(cn, r).Go?
    ensures forall j :: 0 <= j < |r| ==> 0 <= r[j].seg < |cn|
    ensures forall j :: 0 <= j < |r| ==> AtOrBefore(cn, r[SmallestRep(cn, r).value], r[j])
  {
    KnownSegments(cn, r);
    SmallestRepFacts(cn, r);
    hide Better, SmallestRep, AtOrBefore, InConf, SegmentOf;
    forall j | 0 <= j < |r|
      ensures AtOrBefore(cn, r[SmallestRep(cn, r).value], r[j])
    {
      BetterMeans(cn, r[j], r[SmallestRep(cn, r).value]);
    }
  }

  // ----- the first form token

  /** What remains of the first pass: representatives to go, then members of the present one. */
  function Measure(t: FormToken): (int, nat) {
    (|t.reps| - t.next, |t.pending|)
  }

  ghost predicate Less(a: (int, nat), b: (int, nat)) {
    0 <= a.0 && (a.0 < b.0 || (a.0 == b.0 && a.1 < b.1))
  }

  lemma {:induction false} BringSelfFirst(my: int, list: seq<int>, visited: seq<int>, others: set<int>)
    requires list != [] && list[0] == my && my !in visited
    ensures Bring(my, list, visited, others) != [] && Bring(my, list, visited, others)[0] == my
  {
  }

  lemma {:induction false} AloneFlat(c: Conf, s: nat, my: int)
    requires s < |c| && c[s] == [my] && forall i :: 0 <= i < |c| && i != s ==> c[i] == []
    ensures Flatten(c) == [my]
  {
    FlattenSplit(c, s);
    FlattenEmpty(c[..s]);
    FlattenEmpty(c[s + 1..]);
  }

  /** A daemon that accepts the token puts itself next on the list of those visited, and the token
      gets closer to its end. The one way this can go wrong is a ring leader that another daemon
      has on its list as a segment representative: it brings nobody. */
  lemma FillExact(env: Env, n: Node, t: FormToken)
    requires EnvOk(env) && Inv(env, n) && env.my !in t.visited && t.next <= |t.reps|
    requires n.phase.Op? || n.phase.Represented? || n.phase.Gather?
    ensures
      match FillMembers(env, n, t)
      case NotExpected => true
      case InvalidRep => t.next < |t.reps| && t.reps[t.next].kind.PotentialRep?
      case Malformed => n.phase.Gather? && n.alive && t.reps[t.next] == Rep(env.my, SegRep, t.reps[t.next].seg)
      case Filled(t1) =>
        && t1.visited == t.visited + [env.my] && t1.reps == t.reps && t1.next <= |t1.reps|
        && Less(Measure(t1), Measure(t))
        && !(n.phase.Gather? && n.alive && t.reps[t.next].kind.SegRep?)
  {
    if n.phase.Gather? && t.next < |t.reps| && t.reps[t.next].id == env.my && t.pending == [] {
      if t.reps[t.next].kind.SegRep? {
        if !n.alive {
          BringSelfFirst(env.my, n.members, t.visited, RepIds(t.reps) + RepIds(n.reps));
        }
      } else if n.alive {
        LeaderIsFirst(n.membership);
      } else {
        AloneFlat(n.membership, env.seg, env.my);
      }
    }
    hide EnvOk, TimersOk, Known, RepsKnown;
  }

  /** The daemon that creates the token is the first visited. */
  lemma CreatorFirst(env: Env, n: Node)
    requires EnvOk(env) && Inv(env, n) && n.phase.Gather?
    ensures OwnMembers(env, n) != [] && OwnMembers(env, n)[0] == env.my
  {
    if n.alive {
      LeaderIsFirst(n.membership);
      BringSelfFirst(env.my, Flatten(n.membership), [], RepIds(n.reps));
    } else {
      BringSelfFirst(env.my, n.members, [], RepIds(n.reps));
    }
    hide EnvOk, TimersOk, Known, RepsKnown;
  }

  datatype Visit = Visit(env: Env, node: Node)

  /** The token passes through these daemons and each accepts it. */
  ghost predicate Accepted(t: FormToken, vs: seq<Visit>, end: FormToken)
    decreases |vs|
  {
    if vs == [] then end == t
    else
      var v := vs[0];
      && EnvOk(v.env) && Inv(v.env, v.node)
      && (v.node.phase.Op? || v.node.phase.Represented? || v.node.phase.Gather?)
      && v.env.my !in t.visited
      && FillMembers(v.env, v.node, t).Filled?
      && Accepted(FillMembers(v.env, v.node, t).token, vs[1..], end)
  }

  function Ids(vs: seq<Visit>): seq<int> {
    if vs == [] then [] else [vs[0].env.my] + Ids(vs[1..])
  }

  /** After any number of daemons, the members listed as visited are those daemons and no others,
      in the order of their visits. */
  lemma {:induction false} VisitedAreThose(t: FormToken, vs: seq<Visit>, end: FormToken)
    requires t.next <= |t.reps| && Accepted(t, vs, end)
    ensures end.visited == t.visited + Ids(vs) && end.reps == t.reps && end.next <= |end.reps|
    ensures vs != [] ==> Less(Measure(end), Measure(t))
    decreases |vs|
  {
    hide FillMembers, Inv, EnvOk, Measure;
    if vs == [] {
      assert t.visited + [] == t.visited;
    } else {
      FirstAccepted(t, vs, end);
      var t1 := FillMembers(vs[0].env, vs[0].node, t).token;
      VisitedAreThose(t1, vs[1..], end);
      assert t.visited + [vs[0].env.my] + Ids(vs[1..]) == t.visited + Ids(vs);
    }
  }

  lemma FirstAccepted(t: FormToken, vs: seq<Visit>, end: FormToken)
    requires t.next <= |t.reps| && vs != [] && Accepted(t, vs, end)
    ensures FillMembers(vs[0].env, vs[0].node, t).Filled?
    ensures
      var t1 := FillMembers(vs[0].env, vs[0].node, t).token;
      && t1.visited == t.visited + [vs[0].env.my] && t1.reps == t.reps && t1.next <= |t1.reps|
      && Less(Measure(t1), Measure(t)) && Accepted(t1, vs[1..], end)
  {
    FillExact(vs[0].env, vs[0].node, t);
    hide FillMembers, Inv, EnvOk, Measure;
  }

  // ----- the representatives on the token

  lemma SmallestOut(r: seq<Rep>, k: nat)
    requires k < |r|
    ensures var n := |r| - 1; multiset(r[k := r[n]][..n]) + multiset{r[k]} == multiset(r)
  {
    var n := |r| - 1;
    var rest := r[k := r[n]][..n];
    assert r == r[..n] + [r[n]];
    if k < n {
      assert rest == r[..k] + [r[n]] + r[k + 1..n];
      assert r == r[..k] + [r[k]] + r[k + 1..n] + [r[n]];
    } else {
      assert rest == r[..n];
    }
  }

  lemma NoPotentialMeans(r: seq<Rep>, s: seq<Rep>)
    requires multiset(r) == multiset(s) && NoPotential(s)
    ensures NoPotential(r)
  {
    forall i | 0 <= i < |r|
      ensures !r[i].kind.PotentialRep?
    {
      assert r[i] in multiset(r);
      assert r[i] in s;
    }
  }

  lemma NoPotentialRest(r: seq<Rep>, k: nat)
    requires NoPotential(r) && k < |r|
    ensures NoPotential(r[k := r[|r| - 1]][..|r| - 1])
  {
  }

  /** Sorting gathered representatives never meets the "bug" exit and only moves them. */
  lemma {:induction false} SortRepsKeeps(cn: Conf, r: seq<Rep>)
    requires NoPotential(r)
    ensures SortReps(cn, r).Go? && multiset(SortReps(cn, r).value) == multiset(r)
    decreases |r|
  {
    if r != [] {
      hide Better, SmallestRep;
      SmallestRepFacts(cn, r);
      var k, n := SmallestRep(cn, r).value, |r| - 1;
      NoPotentialRest(r, k);
      SmallestOut(r, k);
      SortRepsKeeps(cn, r[k := r[n]][..n]);
    }
  }

  /** Whatever daemons a form token has been created by and been filled at: all representatives on it
      are gathered ones, so nobody meets the "invalid rep type" exit. */
  lemma TokensAreInOrder(env: Env, n: Node, vs: seq<Visit>, end: FormToken)
    requires EnvOk(env) && Inv(env, n) && n.phase.Gather?
    requires CreatedToken(env, n).Go? ==> Accepted(CreatedToken(env, n).value, vs, end)
    ensures CreatedToken(env, n).Go? && NoPotential(end.reps) && multiset(end.reps) == multiset(n.reps)
    ensures CreatedToken(env, n).value.visited == [env.my] && end.visited == [env.my] + Ids(vs)
  {
    CreatorFirst(env, n);
    GatheredOnly(env, n);
    SortRepsKeeps(env.cn, n.reps);
    hide Inv, EnvOk, Accepted, SortReps, OwnMembers;
    var t := CreatedToken(env, n).value;
    SortedSize(t.reps, n.reps);
    VisitedAreThose(t, vs, end);
    NoPotentialMeans(t.reps, n.reps);
  }

  lemma GatheredOnly(env: Env, n: Node)
    requires Inv(env, n)
    ensures NoPotential(n.reps) && n.reps != []
  {
  }

  lemma SortedSize(r: seq<Rep>, s: seq<Rep>)
    requires multiset(r) == multiset(s)
    ensures |r| == |s|
  {
    assert |multiset(r)| == |r| && |multiset(s)| == |s|;
  }
}

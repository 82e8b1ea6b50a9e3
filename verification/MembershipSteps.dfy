/** What each message, token and timer does to a daemon, in every state: the state it ends in, its
    members, representatives, memberships and timers. */
module MembershipSteps {
  import opened Outcomes
  import opened Configuration
  import opened Membership

  // ----- representatives looked for

  /** Somebody of segment s is on the list. */
  ghost predicate Covers(r: seq<Rep>, s: int) {
    exists j :: 0 <= j < |r| && r[j].seg == s
  }

  /** Whom to look for in segment i: the first member there, or the first daemon configured. */
  predicate IsLookout(env: Env, memb: Conf, rep: Rep)
    requires |memb| == |env.cn|
  {
    && 0 <= rep.seg < |env.cn| && rep.seg != env.seg
    && if memb[rep.seg] != [] then rep.id == memb[rep.seg][0] else env.cn[rep.seg] != [] && rep.id == env.cn[rep.seg][0]
  }

  /** r is the list of lookouts from segment i on. */
  ghost predicate AllLookouts(env: Env, memb: Conf, i: nat, kind: Kind, r: seq<Rep>)
    requires |memb| == |env.cn|
  {
    && |r| + i <= |env.cn|
    && (forall x :: x in r <==> x.kind == kind && i <= x.seg && IsLookout(env, memb, x))
    && (forall s :: i <= s < |env.cn| && s != env.seg ==> Covers(r, s))
    && (forall j, k :: 0 <= j < k < |r| ==> r[j].seg < r[k].seg)
  }

  lemma {:induction false} LookoutsExact(env: Env, memb: Conf, i: nat, kind: Kind)
    requires EnvOk(env) && i <= |env.cn| == |memb|
    ensures AllLookouts(env, memb, i, kind, Lookouts(env, memb, i, kind))
    decreases |env.cn| - i
  {
    if i < |env.cn| {
      LookoutsExact(env, memb, i + 1, kind);
      assert env.cn[i] != [];
      hide EnvOk, AllLookouts;
      var rest := Lookouts(env, memb, i + 1, kind);
      if i == env.seg {
        SkipMine(env, memb, i, kind, rest);
        assert [] + rest == rest;
      } else {
        OneLookout(env, memb, i, kind, rest);
      }
    }
  }

  lemma SkipMine(env: Env, memb: Conf, i: nat, kind: Kind, rest: seq<Rep>)
    requires i < |env.cn| == |memb| && i == env.seg && AllLookouts(env, memb, i + 1, kind, rest)
    ensures AllLookouts(env, memb, i, kind, rest)
  {
    hide Covers;
  }

  lemma OneLookout(env: Env, memb: Conf, i: nat, kind: Kind, rest: seq<Rep>)
    requires i < |env.cn| == |memb| && i != env.seg && env.cn[i] != [] && AllLookouts(env, memb, i + 1, kind, rest)
    ensures AllLookouts(env, memb, i, kind, [Rep(if memb[i] != [] then memb[i][0] else env.cn[i][0], kind, i)] + rest)
  {
    var first := Rep(if memb[i] != [] then memb[i][0] else env.cn[i][0], kind, i);
    var r := [first] + rest;
    assert forall x :: x in r <==> x == first || x in rest;
    assert forall x: Rep :: x.kind == kind && x.seg == i && IsLookout(env, memb, x) <==> x == first;
    hide IsLookout;
    forall s | i <= s < |env.cn| && s != env.seg
      ensures Covers(r, s)
    {
      CoversBehind(first, rest, s);
    }
    forall j, k | 0 <= j < k < |r|
      ensures r[j].seg < r[k].seg
    {
      assert r[k] == rest[k - 1] && rest[k - 1] in rest;
    }
  }

  lemma CoversBehind(first: Rep, rest: seq<Rep>, s: int)
    ensures Covers([first] + rest, s) <==> first.seg == s || Covers(rest, s)
  {
    var r := [first] + rest;
    if first.seg == s {
      assert r[0].seg == s;
    }
    if Covers(rest, s) {
      var j :| 0 <= j < |rest| && rest[j].seg == s;
      assert r[j + 1].seg == s;
    }
    if Covers(r, s) && first.seg != s {
      var j :| 0 <= j < |r| && r[j].seg == s;
      assert rest[j - 1].seg == s;
    }
  }

  /** A potential representative goes to the end of the list, unless its segment is on it or the
      list is full. */
  lemma {:induction false} SettlePotential(r: seq<Rep>, rep: Rep, s: int, i: nat)
    requires i <= |r| && rep.kind.PotentialRep?
    ensures Settle(r, rep, s, i) == (if exists j :: i <= j < |r| && r[j].seg == s then Some(r) else None)
    decreases |r| - i
  {
    if i < |r| {
      SettlePotential(r, rep, s, i + 1);
    }
  }

  lemma InsertPotential(cn: Conf, r: seq<Rep>, rep: Rep)
    requires SegmentOf(cn, rep.id) == rep.seg >= 0 && rep.kind.PotentialRep?
    ensures InsertRep(cn, r, rep) == Go(if Covers(r, rep.seg) || |r| == MAX_REPS then r else r + [rep])
  {
    SettlePotential(r, rep, rep.seg, 0);
    hide SegmentOf;
    if exists j :: 0 <= j < |r| && r[j].seg == rep.seg {
      var j :| 0 <= j < |r| && r[j].seg == rep.seg;
      assert Covers(r, rep.seg);
    }
  }

  /** r followed by as many of the others as there is room for. */
  function Filled(r: seq<Rep>, more: seq<Rep>): seq<Rep>
    requires |r| <= MAX_REPS
  {
    r + if |r| + |more| <= MAX_REPS then more else more[..MAX_REPS - |r|]
  }

  lemma FilledStep(r: seq<Rep>, more: seq<Rep>)
    requires |r| <= MAX_REPS && more != []
    ensures Filled(r, more) == if |r| == MAX_REPS then Filled(r, more[1..]) else Filled(r + [more[0]], more[1..])
  {
  }

  /** Potential representatives of segments in increasing order: the first that there is room for. */
  lemma {:induction false} InsertPotentials(cn: Conf, r: seq<Rep>, more: seq<Rep>)
    requires RepsKnown(cn, more) && (forall j :: 0 <= j < |more| ==> more[j].kind.PotentialRep?)
    requires forall j, k :: 0 <= j < k < |more| ==> more[j].seg < more[k].seg
    requires forall j, k :: 0 <= j < |r| && 0 <= k < |more| ==> r[j].seg < more[k].seg
    requires |r| <= MAX_REPS
    ensures InsertReps(cn, r, more) == Go(Filled(r, more))
    decreases |more|
  {
    if more == [] {
      assert r + [] == r;
    } else {
      assert !Covers(r, more[0].seg);
      assert InConf(cn, more[0].id);
      InsertPotential(cn, r, more[0]);
      FilledStep(r, more);
      hide SegmentOf, InsertRep, Filled;
      InsertPotentials(cn, if |r| == MAX_REPS then r else r + [more[0]], more[1..]);
    }
  }

  /** Whoever is inserted, nobody's segment goes, and the list grows by at most one. */
  lemma {:induction false} SettleCovers(r: seq<Rep>, rep: Rep, i: nat)
    requires i <= |r|
    ensures Settle(r, rep, rep.seg, i).Some? ==>
              var r1 := Settle(r, rep, rep.seg, i).value;
              && |r1| == |r| && Covers(r1, rep.seg)
              && (forall j :: 0 <= j < |r| ==> r1[j].seg == r[j].seg && (r1[j].id == r[j].id || r1[j].id == rep.id))
    decreases |r| - i
  {
    if i < |r| {
      SettleCovers(r, rep, i + 1);
      if r[i].seg == rep.seg && Settle(r, rep, rep.seg, i).Some? {
        var r1 := Settle(r, rep, rep.seg, i).value;
        assert r1[i].seg == rep.seg;
      }
    }
  }

  lemma InsertCovers(cn: Conf, r: seq<Rep>, rep: Rep)
    requires SegmentOf(cn, rep.id) == rep.seg >= 0
    ensures InsertRep(cn, r, rep).Go?
    ensures
      var r1 := InsertRep(cn, r, rep).value;
      && |r| <= |r1| <= |r| + 1
      && (forall s :: Covers(r, s) ==> Covers(r1, s)) && (|r| < MAX_REPS ==> Covers(r1, rep.seg))
      && (forall x :: x in r1 ==> x.id == rep.id || exists j :: 0 <= j < |r| && r[j].id == x.id)
  {
    SettleCovers(r, rep, 0);
    hide SegmentOf, Settle;
    var r1 := InsertRep(cn, r, rep).value;
    assert forall j :: 0 <= j < |r| ==> r1[j].seg == r[j].seg;
    forall s | Covers(r, s)
      ensures Covers(r1, s)
    {
      var j :| 0 <= j < |r| && r[j].seg == s;
      assert r1[j].seg == s;
    }
    if |r1| > |r| {
      assert r1[|r|].seg == rep.seg;
    }
  }

  ghost predicate Named(r: seq<Rep>, id: int) {
    exists j :: 0 <= j < |r| && r[j].id == id
  }

  lemma {:induction false} InsertsCover(cn: Conf, r: seq<Rep>, more: seq<Rep>)
    requires RepsKnown(cn, more)
    ensures InsertReps(cn, r, more).Go?
    ensures
      var r1 := InsertReps(cn, r, more).value;
      && |r| <= |r1| <= |r| + |more|
      && (forall s :: Covers(r, s) ==> Covers(r1, s))
      && (|r| + |more| <= MAX_REPS ==> forall j :: 0 <= j < |more| ==> Covers(r1, more[j].seg))
      && (forall x :: x in r1 ==> Named(r, x.id) || Named(more, x.id))
    decreases |more|
  {
    if more != [] {
      assert InConf(cn, more[0].id);
      InsertCovers(cn, r, more[0]);
      hide SegmentOf, InsertRep;
      var r1 := InsertRep(cn, r, more[0]).value;
      InsertsCover(cn, r1, more[1..]);
      var r2 := InsertReps(cn, r, more).value;
      forall x | x in r2
        ensures Named(r, x.id) || Named(more, x.id)
      {
        if Named(more[1..], x.id) {
          var j :| 0 <= j < |more[1..]| && more[1..][j].id == x.id;
          assert more[j + 1].id == x.id;
        } else {
          var j :| 0 <= j < |r1| && r1[j].id == x.id;
          assert r1[j] in r1;
          assert r1[j].id == more[0].id || Named(r, r1[j].id);
        }
      }
      forall j | 0 <= j < |more| && |r| + |more| <= MAX_REPS
        ensures Covers(r2, more[j].seg)
      {
        if j > 0 {
          assert more[1..][j - 1] == more[j];
        }
      }
    } else {
      forall x | x in r
        ensures Named(r, x.id)
      {
        var j :| 0 <= j < |r| && r[j] == x;
        assert r[j].id == x.id;
      }
    }
  }

  // ----- losing the token

  /** Every other segment is looked for exactly once, in order, as far as there is room. */
  ghost predicate LooksEverywhere(env: Env, memb: Conf, potential: seq<Rep>)
    requires |memb| == |env.cn|
  {
    && (forall x :: x in potential ==> x.kind.PotentialRep? && IsLookout(env, memb, x))
    && (forall j, k :: 0 <= j < k < |potential| ==> potential[j].seg < potential[k].seg)
    && (|env.cn| <= MAX_REPS ==> forall s :: 0 <= s < |env.cn| && s != env.seg ==> Covers(potential, s))
  }

  /** While gathering, the segments of those gathered are looked for as well. */
  ghost predicate LooksForGathered(env: Env, n: Node, potential: seq<Rep>)
    requires |n.membership| == |env.cn| && n.reps != []
  {
    && (|n.reps| + |env.cn| <= MAX_REPS ==>
          && (forall s :: 0 <= s < |env.cn| && s != env.seg ==> Covers(potential, s))
          && (forall j :: 1 <= j < |n.reps| ==> Covers(potential, n.reps[j].seg)))
    && (forall x :: x in potential ==>
          Named(n.reps[1..], x.id) || exists y: Rep :: y.id == x.id && IsLookout(env, n.membership, y))
  }

  ghost predicate LooksFor(env: Env, n: Node, potential: seq<Rep>)
    requires |n.membership| == |env.cn| == |n.future| && n.reps != []
  {
    match n.phase
    case Op => LooksEverywhere(env, n.membership, potential)
    case Evs => LooksEverywhere(env, n.future, potential)
    case Gather => LooksForGathered(env, n, potential)
    case _ => potential == n.potential
  }

  ghost predicate OnlyMe(env: Env, memb: Conf) {
    |memb| == |env.cn| && forall i :: 0 <= i < |memb| ==> memb[i] == if i == env.seg then [env.my] else []
  }

  /** The daemon is alone in SEG, listens for others of its segment, and knows whom to look for. */
  ghost predicate Lost(env: Env, n: Node, n': Node)
    requires |n.membership| == |env.cn| == |n.future| && n.reps != []
  {
    && n'.phase == Seg && !n'.alive && n'.timers == {ScastAlive, GatherOrRepresented}
    && n'.members == [env.my] && OnlyMe(env, n'.membership)
    && n'.reps == n.reps && n'.future == n.future
    && n'.commit == (if n.phase.Op? || n.phase.Gather? then [env.my] else n.commit)
    && LooksFor(env, n, n'.potential)
  }

  lemma LooksInOrder(env: Env, memb: Conf)
    requires EnvOk(env) && |memb| == |env.cn| && Known(env.cn, memb)
    ensures InsertReps(env.cn, [], Lookouts(env, memb, 0, PotentialRep)).Go?
    ensures LooksEverywhere(env, memb, InsertReps(env.cn, [], Lookouts(env, memb, 0, PotentialRep)).value)
  {
    var all := Lookouts(env, memb, 0, PotentialRep);
    LookoutsExact(env, memb, 0, PotentialRep);
    LookoutsKnown(env, memb, 0, PotentialRep);
    forall j | 0 <= j < |all|
      ensures all[j].kind.PotentialRep?
    {
      assert all[j] in all;
    }
    InsertPotentials(env.cn, [], all);
    hide Lookouts, EnvOk, Known, RepsKnown, InsertReps, IsLookout;
    FilledLooks(env, memb, all);
  }

  lemma FilledLooks(env: Env, memb: Conf, all: seq<Rep>)
    requires |memb| == |env.cn| && |all| <= |env.cn|
    requires forall x :: x in all <==> x.kind.PotentialRep? && 0 <= x.seg && IsLookout(env, memb, x)
    requires forall s :: 0 <= s < |env.cn| && s != env.seg ==> Covers(all, s)
    requires forall j, k :: 0 <= j < k < |all| ==> all[j].seg < all[k].seg
    ensures LooksEverywhere(env, memb, Filled([], all))
  {
    hide IsLookout, Covers;
    assert [] + all == all;
    var some := Filled([], all);
    assert some <= all;
    forall x | x in some
      ensures x in all
    {
      var j :| 0 <= j < |some| && some[j] == x;
      assert all[j] == x;
    }
  }

  lemma LooksGathered(env: Env, n: Node)
    requires EnvOk(env) && ListsOk(env, n) && n.phase.Gather?
    ensures Lookout(env, n).Go? && LooksForGathered(env, n, Lookout(env, n).value)
  {
    var others, all := n.reps[1..], Lookouts(env, n.membership, 0, KindLeft(n.reps));
    LookoutsExact(env, n.membership, 0, KindLeft(n.reps));
    LookoutsKnown(env, n.membership, 0, KindLeft(n.reps));
    InsertsCover(env.cn, [], others);
    var kept := InsertReps(env.cn, [], others).value;
    InsertsCover(env.cn, kept, all);
    assert Lookout(env, n) == InsertReps(env.cn, kept, all);
    hide Lookout, Lookouts, EnvOk, Known, RepsKnown, ListsOk, InsertReps, KindLeft, IsLookout;
    var potential := Lookout(env, n).value;
    forall x | x in potential
      ensures Named(others, x.id) || exists y: Rep :: y.id == x.id && IsLookout(env, n.membership, y)
    {
      if Named(kept, x.id) {
        var j :| 0 <= j < |kept| && kept[j].id == x.id;
        assert kept[j] in kept;
        assert Named(others, kept[j].id);
      } else {
        var j :| 0 <= j < |all| && all[j].id == x.id;
        assert all[j] in all;
      }
    }
    if |n.reps| + |env.cn| <= MAX_REPS {
      forall s | 0 <= s < |env.cn| && s != env.seg
        ensures Covers(potential, s)
      {
        assert Covers(all, s);
        var j :| 0 <= j < |all| && all[j].seg == s;
        assert Covers(potential, all[j].seg);
      }
      forall j | 1 <= j < |n.reps|
        ensures Covers(potential, n.reps[j].seg)
      {
        assert others[j - 1] == n.reps[j];
        assert Covers(kept, others[j - 1].seg);
      }
    }
  }

  lemma LossExactly(env: Env, n: Node)
    requires EnvOk(env) && AliveOk(n) && ListsOk(env, n) && TimersOk(n.(timers := n.timers + {TokenLossTimer}))
    ensures TokenLoss(env, n).Go? && Lost(env, n, TokenLoss(env, n).value)
  {
    match n.phase {
      case Op => LooksInOrder(env, n.membership);
      case Evs => LooksInOrder(env, n.future);
      case Gather => LooksGathered(env, n);
      case _ =>
    }
    assert LooksFor(env, n, Lookout(env, n).value);
    hide LooksFor, Lookout, Known, RepsKnown;
    LossFields(env, n);
  }

  lemma LossFields(env: Env, n: Node)
    requires AliveOk(n) && ListsOk(env, n) && TimersOk(n.(timers := n.timers + {TokenLossTimer})) && Lookout(env, n).Go?
    requires LooksFor(env, n, Lookout(env, n).value)
    ensures TokenLoss(env, n).Go? && Lost(env, n, TokenLoss(env, n).value)
  {
    hide Lookout, LooksFor, Known, RepsKnown;
    var n' := TokenLoss(env, n).value;
    forall t
      ensures t in n'.timers <==> t in {ScastAlive, GatherOrRepresented}
    {
      match t
      case TokenLossTimer =>
      case ScastAlive =>
      case GatherOrRepresented =>
      case ShiftToSegTimer =>
      case SendJoin =>
      case FormOrFailTimer =>
      case LookupNew =>
      case TokenHurry =>
    }
  }

  // ----- lists

  ghost predicate IsMember(memb: Conf, id: int) {
    exists i :: 0 <= i < |memb| && id in memb[i]
  }

  lemma {:induction false} InConfMeans(memb: Conf, id: int)
    ensures InConf(memb, id) <==> IsMember(memb, id)
  {
    if memb != [] {
      InConfMeans(memb[1..], id);
      if IsMember(memb[1..], id) {
        var i :| 0 <= i < |memb[1..]| && id in memb[1..][i];
        assert id in memb[i + 1];
      }
      if IsMember(memb, id) {
        var i :| 0 <= i < |memb| && id in memb[i];
        assert i > 0 ==> id in memb[1..][i - 1];
      }
    }
  }

  /** A gathered representative that is on the list takes on the new kind; one that is not goes to
      the end, if there is room. */
  ghost predicate Inserted(r: seq<Rep>, rep: Rep, r1: seq<Rep>) {
    if exists j :: 0 <= j < |r| && r[j].id == rep.id then
      exists j :: 0 <= j < |r| && r[j].id == rep.id && r1 == r[j := rep] && forall k :: 0 <= k < j ==> r[k].id != rep.id
    else r1 == if |r| == MAX_REPS then r else r + [rep]
  }

  lemma {:induction false} SettleGathered(r: seq<Rep>, rep: Rep, i: nat)
    requires i <= |r| && NoPotential(r) && !rep.kind.PotentialRep?
    requires forall j :: 0 <= j < |r| && r[j].id == rep.id ==> r[j].seg == rep.seg
    requires forall k :: 0 <= k < i ==> r[k].id != rep.id
    ensures
      match Settle(r, rep, rep.seg, i)
      case None => forall j :: 0 <= j < |r| ==> r[j].id != rep.id
      case Some(r1) =>
        exists j :: 0 <= j < |r| && r[j].id == rep.id && r1 == r[j := rep] && forall k :: 0 <= k < j ==> r[k].id != rep.id
    decreases |r| - i
  {
    if i < |r| {
      if r[i].seg == rep.seg && r[i].id == rep.id {
        assert r[i].(kind := rep.kind) == rep;
      } else {
        SettleGathered(r, rep, i + 1);
      }
    }
  }

  lemma InsertGathered(cn: Conf, r: seq<Rep>, rep: Rep)
    requires RepsKnown(cn, r) && NoPotential(r) && !rep.kind.PotentialRep? && SegmentOf(cn, rep.id) == rep.seg && InConf(cn, rep.id)
    ensures InsertRep(cn, r, rep).Go? && Inserted(r, rep, InsertRep(cn, r, rep).value)
  {
    assert forall j :: 0 <= j < |r| && r[j].id == rep.id ==> r[j].seg == rep.seg;
    SettleGathered(r, rep, 0);
    hide SegmentOf, Settle;
  }

  lemma RepIdsMean(r: seq<Rep>, id: int)
    ensures id in RepIds(r) <==> Named(r, id)
  {
    if Named(r, id) {
      var j :| 0 <= j < |r| && r[j].id == id;
      assert r[j].id in RepIds(r);
    }
  }

  /** Whom a representative brings: those of its list that have not been visited and are not
      representatives themselves. */
  ghost predicate Brings(my: int, list: seq<int>, visited: seq<int>, reps: seq<Rep>, brought: seq<int>) {
    forall x :: x in brought <==> x in list && x !in visited && (x == my || !Named(reps, x))
  }

  lemma NamedConcat(a: seq<Rep>, b: seq<Rep>, id: int)
    ensures Named(a + b, id) <==> Named(a, id) || Named(b, id)
  {
    if Named(a, id) {
      var j :| 0 <= j < |a| && a[j].id == id;
      assert (a + b)[j].id == id;
    }
    if Named(b, id) {
      var j :| 0 <= j < |b| && b[j].id == id;
      assert (a + b)[|a| + j].id == id;
    }
    if Named(a + b, id) {
      var j :| 0 <= j < |a + b| && (a + b)[j].id == id;
      assert if j < |a| then a[j].id == id else b[j - |a|].id == id;
    }
  }

  lemma BringNamed(my: int, list: seq<int>, visited: seq<int>, a: seq<Rep>, b: seq<Rep>)
    ensures Brings(my, list, visited, a + b, Bring(my, list, visited, RepIds(a) + RepIds(b)))
  {
    BringExact(my, list, visited, RepIds(a) + RepIds(b));
    hide RepIds, Named;
    forall x
      ensures x in RepIds(a) + RepIds(b) <==> Named(a + b, x)
    {
      RepIdsMean(a, x);
      RepIdsMean(b, x);
      NamedConcat(a, b, x);
    }
  }

  ghost predicate BroughtExactly(my: int, list: seq<int>, visited: seq<int>, others: set<int>, brought: seq<int>) {
    forall x :: x in brought <==> x in list && x !in visited && (x == my || x !in others)
  }

  lemma {:induction false} BringExact(my: int, list: seq<int>, visited: seq<int>, others: set<int>)
    ensures BroughtExactly(my, list, visited, others, Bring(my, list, visited, others))
    ensures Distinct(list) ==> Distinct(Bring(my, list, visited, others))
  {
    if list != [] {
      BringExact(my, list[1..], visited, others);
      var rest := Bring(my, list[1..], visited, others);
      assert forall x :: x in list <==> x == list[0] || x in list[1..];
      assert Distinct(list) ==> list[0] !in list[1..] && Distinct(list[1..]);
    }
  }

  /** The order of two members brought is that of the list. */
  lemma {:induction false} BringKeepsOrder(my: int, list: seq<int>, visited: seq<int>, others: set<int>, i: nat, j: nat)
    requires i < j < |Bring(my, list, visited, others)|
    ensures
      var b := Bring(my, list, visited, others);
      exists k, m :: 0 <= k < m < |list| && list[k] == b[i] && list[m] == b[j]
  {
    var b, rest := Bring(my, list, visited, others), Bring(my, list[1..], visited, others);
    var d := |b| - |rest|;
    if i < d {
      BringExact(my, list[1..], visited, others);
      assert b[j] == rest[j - 1];
      assert b[j] in list[1..];
      var m :| 0 <= m < |list[1..]| && list[1..][m] == b[j];
      assert list[0] == b[i] && list[m + 1] == b[j];
    } else {
      BringKeepsOrder(my, list[1..], visited, others, i - d, j - d);
      assert b[i] == rest[i - d] && b[j] == rest[j - d];
      var k, m :| 0 <= k < m < |list[1..]| && list[1..][k] == rest[i - d] && list[1..][m] == rest[j - d];
      assert list[k + 1] == b[i] && list[m + 1] == b[j];
    }
  }

  // ----- the exits

  /** Insert_rep exits exactly for a daemon outside the configuration. */
  lemma InsertExitsExactly(cn: Conf, r: seq<Rep>, rep: Rep)
    ensures InsertRep(cn, r, rep).Exit? <==> !IsMember(cn, rep.id)
  {
    InConfMeans(cn, rep.id);
    hide SegmentOf, Settle;
  }

  lemma {:induction false} ScanExits(cn: Conf, r: seq<Rep>, current: nat, i: nat)
    requires current < i <= |r|
    ensures Scan(cn, r, current, i).Exit? <==> i < |r| && r[current].kind.PotentialRep?
    decreases |r| - i
  {
    if i < |r| && !r[current].kind.PotentialRep? {
      ScanExits(cn, r, if Better(cn, r[i], r[current]) then i else current, i + 1);
    }
  }

  /** Smallest_rep exits exactly if the first of several is a potential representative. */
  lemma SmallestExitsExactly(cn: Conf, r: seq<Rep>)
    requires r != []
    ensures SmallestRep(cn, r).Exit? <==> |r| > 1 && r[0].kind.PotentialRep?
  {
    ScanExits(cn, r, 0, 1);
  }

  /** Losing a token that the daemon does not have is the "bug !!!" exit; nothing else makes Memb_token_loss
      exit. */
  lemma LossExitsExactly(env: Env, n: Node)
    requires EnvOk(env) && ListsOk(env, n)
    ensures TokenLoss(env, n).Exit? <==> n.phase.Seg? || n.phase.Represented? || (n.phase.Gather? && !n.alive)
  {
    LookoutGoes(env, n);
    hide Lookout, EnvOk, ListsOk;
  }

  // ----- what each event does

  /** The membership by which this daemon goes. */
  function Current(n: Node): Conf {
    if n.phase.Evs? then n.future else n.membership
  }

  /** The timers of a state, but for those that only a ring leader has. */
  function Watchdogs(phase: Phase, alive: bool): set<Timer> {
    match phase
    case Op => {TokenLossTimer}
    case Seg => {ScastAlive, GatherOrRepresented}
    case Represented => {ShiftToSegTimer}
    case Gather => {FormOrFailTimer, SendJoin} + if alive then {TokenLossTimer} else {}
    case Form => {TokenLossTimer}
    case Evs => {TokenLossTimer}
  }

  predicate Leads(env: Env, memb: Conf) {
    Leader(memb) == Some(env.my)
  }

  /** With a token, somebody of one's own ring that looks for others means that the ring is broken. */
  ghost predicate OnAlive(env: Env, n: Node, sender: int, n': Node)
    requires |n.membership| == |env.cn| == |n.future| && n.reps != []
  {
    if n.alive then
      if IsMember(Current(n), sender) then
        && Lost(env, n, n'.(members := [env.my]))
        && n'.members == (if sender == env.my then [env.my] else [env.my, sender])
      else n' == n
    else if n.phase.Seg? || n.phase.Gather? then
      n' == n.(members := if sender in n.members || |n.members| == MAX_PROCS_RING then n.members else n.members + [sender])
    else n' == n
  }

  /** Gathering for the ring, with its token. */
  ghost predicate Gathers(env: Env, n: Node, potential: seq<Rep>, n': Node) {
    n' == n.(phase := Gather, members := [], reps := [Rep(env.my, RingRep, env.seg)], potential := potential,
             timers := Watchdogs(Gather, true) + n.timers * {TokenHurry})
  }

  ghost predicate OnJoin(env: Env, n: Node, sender: int, reps: seq<Rep>, n': Node)
    requires |n.membership| == |env.cn| == |n.future| && n.reps != [] && reps != [] && env.seg < |env.cn|
  {
    match n.phase
    case Op =>
      if !IsMember(n.membership, sender) then
        if Leads(env, n.membership) then Gathers(env, n, [reps[0]], n') else n' == n
      else if |env.cn| > 1 then Lost(env, n, n')
      else n' == n
    case Seg =>
      if SegmentOf(env.cn, sender) == env.seg && reps[0].kind.SegRep? then
        n' == n.(phase := Represented, timers := {ShiftToSegTimer})
      else n' == n
    case Gather =>
      && n' == n.(reps := n'.reps, potential := n'.potential)
      && Inserted(n.reps, reps[0], n'.reps)
      && (forall s :: Covers(n.potential, s) ==> Covers(n'.potential, s))
      && (|n.potential| + |reps| <= MAX_REPS ==> forall j :: 0 <= j < |reps| ==> Covers(n'.potential, reps[j].seg))
    case Evs => OnAlive(env, n, sender, n')
    case _ => n' == n
  }

  /** Only a daemon that gathers takes hints. */
  ghost predicate OnRefer(env: Env, n: Node, id: int, kind: Kind, n': Node) {
    if n.phase.Gather? && IsMember(env.cn, id) then
      && n' == n.(potential := n'.potential)
      && (forall s :: Covers(n.potential, s) ==> Covers(n'.potential, s))
      && (|n.potential| < MAX_REPS ==> Covers(n'.potential, SegmentOf(env.cn, id)))
    else n' == n
  }

  /** The leader of a ring looks for others: at once if somebody is missing. */
  ghost predicate OnLookup(env: Env, n: Node, missing: bool, n': Node) {
    if !n.phase.Op? || !Leads(env, n.membership) then n' == n
    else if missing || |env.cn| == 1 then Gathers(env, n, [], n')
    else n' == n.(members := [], potential := [], reps := [Rep(env.my, RingRep, env.seg)])
  }

  /** It is this daemon's turn on the first pass of the form token. */
  predicate MyTurn(env: Env, n: Node, t: FormToken) {
    if n.phase.Gather? then t.next < |t.reps| && t.reps[t.next].id == env.my && t.pending == []
    else t.pending != [] && t.pending[0] == env.my
  }

  predicate TakesForm1(env: Env, n: Node) {
    n.phase.Gather? || n.phase.Represented? || (n.phase.Op? && !Leads(env, n.membership))
  }

  /** x stands for a representative of another segment, as one that may be there. */
  ghost predicate FromElsewhere(reps: seq<Rep>, seg: nat, x: Rep) {
    x.kind.PotentialRep? && x.seg != seg && exists j :: 0 <= j < |reps| && reps[j].id == x.id && reps[j].seg == x.seg
  }

  /** A daemon that takes the token waits in FORM, and knows where the representatives on it are. */
  ghost predicate Formed(env: Env, n: Node, reps: seq<Rep>, n': Node) {
    && n' == n.(phase := Form, alive := false, timers := {TokenLossTimer}, members := n'.members, potential := n'.potential)
    && (forall x :: x in n'.potential ==> FromElsewhere(reps, env.seg, x))
    && (|reps| <= MAX_REPS ==> forall j :: 0 <= j < |reps| && reps[j].seg != env.seg ==> Covers(n'.potential, reps[j].seg))
  }

  ghost predicate OnForm1(env: Env, n: Node, t: FormToken, n': Node) {
    if !TakesForm1(env, n) || !MyTurn(env, n, t) then n' == n
    else
      && Formed(env, n, t.reps, n')
      && if n.phase.Gather? then Brings(env.my, n.members, t.visited, t.reps + n.reps, n'.members)
         else n'.members == n.members
  }

  ghost predicate OnForm2(n: Node, expected: bool, future: Conf, n': Node) {
    if n.phase.Form? && expected then n' == n.(phase := Evs, alive := true, future := future)
    else n' == n
  }

  /** The leader of the ring hurries the token from now on. */
  ghost predicate OnPacket(env: Env, n: Node, n': Node) {
    n' == if n.alive && Leads(env, Current(n)) then n.(timers := n.timers + {TokenHurry}) else n
  }

  /** The future membership is installed; its leader will look for others. */
  ghost predicate Installed(env: Env, n: Node, n': Node) {
    n' == n.(phase := Op, membership := n.future,
             timers := n.timers + if Leads(env, n.future) then {TokenHurry, LookupNew} else {})
  }

  ghost predicate OnToken(env: Env, n: Node, installs: bool, tooManyRounds: bool, n': Node)
    requires |n.membership| == |env.cn| == |n.future| && n.reps != []
  {
    if n.phase.Evs? && installs then Installed(env, n, n')
    else if n.phase.Evs? && tooManyRounds then Lost(env, n, n')
    else OnPacket(env, n, n')
  }

  /** my comes first in configuration order among the members heard of. */
  predicate ComesFirst(cn: Conf, members: seq<int>, my: int) {
    forall i :: 0 <= i < |members| ==>
      var s := SegmentOf(cn, members[i]);
      SegmentOf(cn, my) < s || (0 <= SegmentOf(cn, my) == s && IndexIn(cn[s], my) <= IndexIn(cn[s], members[i]))
  }

  /** Back to the ring, whose leader will look for others again. */
  ghost predicate BackInOp(n: Node, n': Node) {
    n' == n.(phase := Op, timers := n.timers - {FormOrFailTimer, SendJoin} + {LookupNew})
  }

  /** The time for gathering is up. The elected daemon makes the form token, unless it is the leader of a
      ring that has found nobody; another leader goes back to its ring; the rest gather anew. */
  ghost predicate OnFormOrFail(env: Env, n: Node, n': Node)
    requires n.reps != []
  {
    SmallestRep(env.cn, n.reps).Go? &&
    var elected := n.reps[SmallestRep(env.cn, n.reps).value].id;
    if n.alive && (elected != env.my || |n.reps| == 1) then BackInOp(n, n')
    else if elected == env.my then
      && Formed(env, n, n.reps, n')
      && Brings(env.my, if n.reps[0].kind.RingRep? then Flatten(n.membership) else n.members, [], n.reps, n'.members)
    else
      && n' == n.(members := [env.my], reps := [Rep(env.my, SegRep, env.seg)], potential := n'.potential)
      && (|n.reps| <= MAX_REPS ==> forall j :: 1 <= j < |n.reps| ==> Covers(n'.potential, n.reps[j].seg))
  }

  ghost predicate OnTimer(env: Env, n: Node, t: Timer, missing: bool, n': Node)
    requires |n.membership| == |env.cn| == |n.future| && n.reps != []
  {
    match t
    case TokenLossTimer => Lost(env, n, n')
    case GatherOrRepresented =>
      if ComesFirst(env.cn, n.members, env.my) then
        n' == n.(phase := Gather, reps := [Rep(env.my, SegRep, env.seg)], timers := Watchdogs(Gather, false))
      else n' == n.(phase := Represented, timers := {ShiftToSegTimer})
    case ShiftToSegTimer => n' == n.(phase := Seg, members := [env.my], timers := {ScastAlive, GatherOrRepresented})
    case FormOrFailTimer => OnFormOrFail(env, n, n')
    case LookupNew => OnLookup(env, n.(timers := n.timers - {LookupNew}), missing, n')
    case TokenHurry => n' == if Leads(env, Current(n)) then n else n.(timers := n.timers - {TokenHurry})
    case _ => n' == n
  }

  /** What an event makes of a daemon. */
  ghost predicate Reacts(env: Env, n: Node, e: Event, n': Node)
    requires |n.membership| == |env.cn| == |n.future| && n.reps != [] && env.seg < |env.cn|
    requires e.JoinMsg? ==> e.reps != []
  {
    match e
    case AliveMsg(sender) => OnAlive(env, n, sender, n')
    case JoinMsg(sender, reps) => OnJoin(env, n, sender, reps, n')
    case ReferMsg(id, kind) => OnRefer(env, n, id, kind, n')
    case ForeignMsg(missing) => OnLookup(env, n, missing, n')
    case Form1(t) => OnForm1(env, n, t, n')
    case Form2(expected, future) => OnForm2(n, expected, future, n')
    case RingPacket => OnPacket(env, n, n')
    case RegularToken(installs, tooMany) => OnToken(env, n, installs, tooMany, n')
    case Fires(t, missing) => OnTimer(env, n, t, missing, n')
  }

  /** The member list of the token once a representative has taken its turn: behind those visited come
      the members that it brings, itself first; the next representative is up after them. */
  ghost predicate Expanded(env: Env, n: Node, t: FormToken, t1: FormToken) {
    && t1.reps == t.reps && t1.next == t.next + 1 && |t1.visited| == |t.visited| + 1 && t.visited <= t1.visited
    && var brought := [t1.visited[|t.visited|]] + t1.pending;
       if t.next < |t.reps| && t.reps[t.next].kind.RingRep? then brought == Flatten(n.membership)
       else Brings(env.my, n.members, t.visited, t.reps + n.reps, brought)
  }

  /** What a form token on its first pass meets: a daemon whose turn it is not, one that is expected as a
      potential representative, a representative that brings nobody or the members it is there for,
      or the next of these members. */
  lemma FillsExactly(env: Env, n: Node, t: FormToken)
    ensures FillMembers(env, n, t).NotExpected? <==> !MyTurn(env, n, t)
    ensures FillMembers(env, n, t).InvalidRep? <==> MyTurn(env, n, t) && n.phase.Gather? && t.reps[t.next].kind.PotentialRep?
    ensures FillMembers(env, n, t).Malformed? ==>
              n.phase.Gather? && MyTurn(env, n, t)
              && (if t.reps[t.next].kind.RingRep? then Flatten(n.membership) == [] else Brings(env.my, n.members, t.visited, t.reps + n.reps, []))
    ensures FillMembers(env, n, t).Filled? ==>
              var t1 := FillMembers(env, n, t).token;
              if n.phase.Gather? then Expanded(env, n, t, t1)
              else t1 == FormToken(t.visited + [env.my], t.pending[1..], t.reps, t.next)
  {
    BringNamed(env.my, n.members, t.visited, t.reps, n.reps);
    hide Brings, Bring, Flatten;
    if FillMembers(env, n, t).Filled? && n.phase.Gather? {
      var t1 := FillMembers(env, n, t).token;
      var list := if t.reps[t.next].kind.SegRep? then Bring(env.my, n.members, t.visited, RepIds(t.reps) + RepIds(n.reps))
                  else Flatten(n.membership);
      assert list == [list[0]] + list[1..];
      assert t1.visited[|t.visited|] == list[0];
    }
  }

  /** The token as its creator sends it out: the creator has visited itself, and the members it
      brings come next. */
  lemma CreatesExactly(env: Env, n: Node)
    requires n.reps != [] && CreatedToken(env, n).Go?
    ensures
      var t := CreatedToken(env, n).value;
      && |t.visited| == 1 && t.next == 1 && SortReps(env.cn, n.reps) == Go(t.reps)
      && Brings(env.my, if n.reps[0].kind.RingRep? then Flatten(n.membership) else n.members, [], n.reps, t.visited + t.pending)
  {
    var list := if n.reps[0].kind.RingRep? then Flatten(n.membership) else n.members;
    BringNamed(env.my, list, [], n.reps, []);
    assert n.reps + [] == n.reps && RepIds(n.reps) + RepIds([]) == RepIds(n.reps);
    hide Brings, Bring, Flatten, SortReps;
    var t, members := CreatedToken(env, n).value, OwnMembers(env, n);
    assert members == members[..1] + members[1..];
  }

  lemma Form1ExitsExactly(env: Env, n: Node, t: FormToken)
    requires EnvOk(env) && Inv(env, n) && RepsKnown(env.cn, t.reps)
    ensures HandleForm1(env, n, t).Exit? <==>
              TakesForm1(env, n) && MyTurn(env, n, t) && n.phase.Gather? && t.reps[t.next].kind.PotentialRep?
  {
    FillsExactly(env, n, t);
    ElsewhereKnown(env.cn, t.reps, env.seg);
    InsertRepsGo(env.cn, [], Elsewhere(t.reps, env.seg));
    hide EnvOk, RepsKnown, FillMembers, Bring, TimersOk, ListsOk;
  }

  // ----- the machine does that

  lemma WithAlarm(n: Node)
    requires TokenLossTimer in n.timers
    ensures n.(timers := n.timers + {TokenLossTimer}) == n
  {
    assert n.timers + {TokenLossTimer} == n.timers;
  }

  lemma AliveReacts(env: Env, n: Node, sender: int)
    requires EnvOk(env) && Inv(env, n)
    ensures HandleAlive(env, n, sender).Go? && OnAlive(env, n, sender, HandleAlive(env, n, sender).value)
  {
    InConfMeans(Current(n), sender);
    if n.alive {
      WithAlarm(n);
      LossExactly(env, n);
      hide LooksFor, IsMember, InConf, Known, RepsKnown, EnvOk, TokenLoss, ListsOk, TimersOk, LeaderOk;
    }
  }

  lemma JoinReacts(env: Env, n: Node, sender: int, reps: seq<Rep>)
    requires EnvOk(env) && Inv(env, n) && Possible(env, n, JoinMsg(sender, reps))
    ensures HandleJoin(env, n, sender, reps).Go? && OnJoin(env, n, sender, reps, HandleJoin(env, n, sender, reps).value)
  {
    InConfMeans(Current(n), sender);
    if n.phase.Gather? {
      SmallestGoes(env, n, reps[0]);
      InsertGathered(env.cn, n.reps, reps[0]);
      InsertsCover(env.cn, n.potential, reps);
      TimerThere(n);
      hide Inserted, Covers, IsMember, InConf, Known, RepsKnown, EnvOk, TokenLoss, InsertRep, SmallestRep;
    } else if n.alive {
      WithAlarm(n);
      LossExactly(env, n);
      hide LooksFor, IsMember, InConf, Known, RepsKnown, EnvOk, TokenLoss;
      if n.phase.Op? {
        GathersTimers(n);
      }
    } else {
      RepresentedTimers(n);
      hide IsMember, InConf, Known, RepsKnown, EnvOk, TokenLoss;
    }
  }

  lemma SmallestGoes(env: Env, n: Node, rep: Rep)
    requires Inv(env, n) && n.phase.Gather? && RepsKnown(env.cn, [rep]) && !rep.kind.PotentialRep?
    ensures InsertRep(env.cn, n.reps, rep).Go? && InsertRep(env.cn, n.reps, rep).value != []
    ensures SmallestRep(env.cn, InsertRep(env.cn, n.reps, rep).value).Go?
  {
    assert SegmentOf(env.cn, [rep][0].id) == rep.seg && InConf(env.cn, rep.id);
    InsertRepFacts(env.cn, n.reps, rep);
    SmallestRepFacts(env.cn, InsertRep(env.cn, n.reps, rep).value);
  }

  lemma TimerThere(n: Node)
    requires TimersOk(n) && n.phase.Gather?
    ensures n.timers + {FormOrFailTimer} == n.timers
  {
  }

  lemma GathersTimers(n: Node)
    requires TimersOk(n) && n.phase.Op?
    ensures n.timers - {ScastAlive, LookupNew} + {SendJoin, FormOrFailTimer} == Watchdogs(Gather, true) + n.timers * {TokenHurry}
  {
    forall t
      ensures t in n.timers - {ScastAlive, LookupNew} + {SendJoin, FormOrFailTimer}
         <==> t in Watchdogs(Gather, true) + n.timers * {TokenHurry}
    {
      match t
      case TokenLossTimer =>
      case ScastAlive =>
      case GatherOrRepresented =>
      case ShiftToSegTimer =>
      case SendJoin =>
      case FormOrFailTimer =>
      case LookupNew =>
      case TokenHurry =>
    }
  }

  lemma RepresentedTimers(n: Node)
    requires TimersOk(n) && !n.alive
    ensures n.phase.Seg? ==> n.timers - {ScastAlive, GatherOrRepresented} + {ShiftToSegTimer} == {ShiftToSegTimer}
    ensures n.phase.Represented? ==> n.timers == n.timers + {ShiftToSegTimer} == {ShiftToSegTimer}
  {
    forall t
      ensures t in n.timers && n.phase.Seg? ==> t in {ScastAlive, GatherOrRepresented}
      ensures t in n.timers && n.phase.Represented? ==> t == ShiftToSegTimer
    {
      match t
      case TokenLossTimer =>
      case ScastAlive =>
      case GatherOrRepresented =>
      case ShiftToSegTimer =>
      case SendJoin =>
      case FormOrFailTimer =>
      case LookupNew =>
      case TokenHurry =>
    }
  }

  lemma ReferReacts(env: Env, n: Node, id: int, kind: Kind)
    requires EnvOk(env) && Inv(env, n)
    ensures HandleRefer(env, n, id, kind).Go? && OnRefer(env, n, id, kind, HandleRefer(env, n, id, kind).value)
  {
    InConfMeans(env.cn, id);
    if n.phase.Gather? && SegmentOf(env.cn, id) >= 0 {
      InsertCovers(env.cn, n.potential, Rep(id, kind, SegmentOf(env.cn, id)));
    }
    hide Covers, IsMember, InsertRep, Known, EnvOk;
  }

  lemma LookupReacts(env: Env, n: Node, missing: bool)
    requires n.phase.Op? ==> TimersOk(n.(timers := n.timers + {LookupNew})) && n.alive && Leads(env, n.membership)
    ensures OnLookup(env, n, missing, Lookup(env, n, missing))
  {
    if n.phase.Op? {
      GathersTimers(n.(timers := n.timers + {LookupNew}));
      assert n.timers - {ScastAlive, LookupNew} == n.timers + {LookupNew} - {ScastAlive, LookupNew};
      assert (n.timers + {LookupNew}) * {TokenHurry} == n.timers * {TokenHurry};
    }
  }

  lemma {:induction false} ElsewhereMeans(r: seq<Rep>, seg: nat)
    ensures |Elsewhere(r, seg)| <= |r|
    ensures forall x :: x in Elsewhere(r, seg) ==> FromElsewhere(r, seg, x)
    ensures forall j :: 0 <= j < |r| && r[j].seg != seg ==> Covers(Elsewhere(r, seg), r[j].seg)
  {
    if r != [] {
      ElsewhereMeans(r[1..], seg);
      var e, rest := Elsewhere(r, seg), Elsewhere(r[1..], seg);
      forall x | x in e
        ensures FromElsewhere(r, seg, x)
      {
        if x in rest {
          assert FromElsewhere(r[1..], seg, x);
          var j :| 0 <= j < |r[1..]| && r[1..][j].id == x.id && r[1..][j].seg == x.seg;
          assert r[j + 1].id == x.id;
        } else {
          assert r[0].id == x.id;
        }
      }
      forall j | 0 <= j < |r| && r[j].seg != seg
        ensures Covers(e, r[j].seg)
      {
        if j == 0 {
          assert e[0].seg == r[0].seg;
        } else {
          assert r[1..][j - 1] == r[j];
          assert Covers(rest, r[j].seg);
          var k :| 0 <= k < |rest| && rest[k].seg == r[j].seg;
          assert e[k + |e| - |rest|] == rest[k];
        }
      }
    }
  }

  /** Inserting potential representatives brings in nobody else. */
  lemma {:induction false} InsertsOnly(cn: Conf, r: seq<Rep>, more: seq<Rep>)
    requires RepsKnown(cn, more) && NoOther(more)
    ensures InsertReps(cn, r, more).Go? && forall x :: x in InsertReps(cn, r, more).value ==> x in r || x in more
    decreases |more|
  {
    if more != [] {
      assert InConf(cn, more[0].id);
      InsertPotential(cn, r, more[0]);
      hide SegmentOf, InsertRep;
      InsertsOnly(cn, InsertRep(cn, r, more[0]).value, more[1..]);
    }
  }

  predicate NoOther(r: seq<Rep>) {
    forall j :: 0 <= j < |r| ==> r[j].kind.PotentialRep?
  }

  /** Into FORM with the representatives of the token. */
  lemma FormedHere(env: Env, n: Node, members: seq<int>, reps: seq<Rep>)
    requires EnvOk(env) && RepsKnown(env.cn, reps)
    requires InsertReps(env.cn, [], Elsewhere(reps, env.seg)).Go? ==>
               TimersOk(EnterForm(n.(members := members, potential := InsertReps(env.cn, [], Elsewhere(reps, env.seg)).value)))
    ensures InsertReps(env.cn, [], Elsewhere(reps, env.seg)).Go?
    ensures Formed(env, n, reps, EnterForm(n.(members := members, potential := InsertReps(env.cn, [], Elsewhere(reps, env.seg)).value)))
  {
    ElsewhereKnown(env.cn, reps, env.seg);
    ElsewhereMeans(reps, env.seg);
    InsertsCover(env.cn, [], Elsewhere(reps, env.seg));
    var there := Elsewhere(reps, env.seg);
    forall j | 0 <= j < |there|
      ensures there[j].kind.PotentialRep?
    {
      assert there[j] in there;
    }
    InsertsOnly(env.cn, [], there);
    var potential := InsertReps(env.cn, [], there).value;
    var n' := EnterForm(n.(members := members, potential := potential));
    hide RepsKnown, EnvOk, InsertReps, Elsewhere, FromElsewhere;
    FormTimers(n');
    forall x | x in potential
      ensures FromElsewhere(reps, env.seg, x)
    {
      assert x in there;
    }
    forall j | |reps| <= MAX_REPS && 0 <= j < |reps| && reps[j].seg != env.seg
      ensures Covers(potential, reps[j].seg)
    {
      var k :| 0 <= k < |there| && there[k].seg == reps[j].seg;
      assert Covers(potential, there[k].seg);
    }
  }

  lemma FormTimers(n: Node)
    requires TimersOk(n) && n.phase.Form? && !n.alive
    ensures n.timers == {TokenLossTimer}
  {
    forall t
      ensures t in n.timers <==> t == TokenLossTimer
    {
      match t
      case TokenLossTimer =>
      case ScastAlive =>
      case GatherOrRepresented =>
      case ShiftToSegTimer =>
      case SendJoin =>
      case FormOrFailTimer =>
      case LookupNew =>
      case TokenHurry =>
    }
  }

  lemma Form1Reacts(env: Env, n: Node, t: FormToken)
    requires EnvOk(env) && Inv(env, n) && Possible(env, n, Form1(t))
    ensures HandleForm1(env, n, t).Go? && OnForm1(env, n, t, HandleForm1(env, n, t).value)
  {
    Form1Keeps(env, n, t);
    InvTimers(env, HandleForm1(env, n, t).value);
    if TakesForm1(env, n) && MyTurn(env, n, t) && !FillMembers(env, n, t).NotExpected? {
      var members := if n.phase.Gather? then Bring(env.my, n.members, t.visited, RepIds(t.reps) + RepIds(n.reps)) else n.members;
      BringNamed(env.my, n.members, t.visited, t.reps, n.reps);
      hide Inv, Brings, TimersOk, FillMembers, EnvOk, RepsKnown, Bring;
      FormedHere(env, n, members, t.reps);
    }
  }

  lemma InvTimers(env: Env, n: Node)
    requires Inv(env, n)
    ensures TimersOk(n)
  {
  }

  lemma Form2Reacts(env: Env, n: Node, expected: bool, future: Conf)
    requires Inv(env, n)
    ensures OnForm2(n, expected, future, HandleForm2(n, expected, future))
  {
    if n.phase.Form? {
      assert n.timers + {TokenLossTimer} == n.timers;
    }
  }

  lemma PacketReacts(env: Env, n: Node)
    requires Inv(env, n)
    ensures OnPacket(env, n, HandlePacket(env, n))
  {
    if n.alive {
      assert n.timers + ({TokenLossTimer} + {TokenHurry}) == n.timers + {TokenHurry};
      assert n.timers + ({TokenLossTimer} + {}) == n.timers;
    }
  }

  lemma TokenReacts(env: Env, n: Node, installs: bool, tooMany: bool)
    requires EnvOk(env) && Inv(env, n)
    ensures HandleRegularToken(env, n, installs, tooMany).Go?
    ensures OnToken(env, n, installs, tooMany, HandleRegularToken(env, n, installs, tooMany).value)
  {
    if n.alive {
      var more := if Leads(env, Current(n)) then {TokenHurry} else {};
      var n1 := n.(timers := n.timers + more);
      assert n.timers + ({TokenLossTimer} + more) == n.timers + more;
      assert Queued(n, {TokenLossTimer} + more) == n1;
      assert more + (if Leads(env, n.future) then {LookupNew} else {}) == (if Leads(env, n.future) then more + {LookupNew} else more);
      WithAlarm(n1);
      if n.phase.Evs? {
        assert n.timers + more + {LookupNew} == n.timers + (more + {LookupNew});
        LossExactly(env, n1);
      }
      hide TokenLoss, LooksFor, Known, RepsKnown, EnvOk;
    }
  }

  lemma ComesFirstMeans(env: Env, members: seq<int>)
    requires EnvOk(env)
    ensures Smallest(env.cn, members, env.my) <==> ComesFirst(env.cn, members, env.my)
  {
    hide IndexIn;
  }

  lemma FormOrFailReacts(env: Env, n: Node)
    requires EnvOk(env) && Inv(env, n.(timers := n.timers + {FormOrFailTimer})) && n.phase.Gather? && FormOrFailTimer !in n.timers
    ensures FormOrFail(env, n).Go?
    ensures OnFormOrFail(env, n.(timers := n.timers + {FormOrFailTimer}), FormOrFail(env, n).value)
  {
    FormOrFailKeeps(env, n);
    var before, n' := n.(timers := n.timers + {FormOrFailTimer}), FormOrFail(env, n).value;
    InvTimers(env, n');
    InvTimers(env, before);
    var elected := n.reps[SmallestRep(env.cn, n.reps).value].id;
    if n.alive && (elected != env.my || |n.reps| == 1) {
      assert before.timers - {FormOrFailTimer, SendJoin} + {LookupNew} == n.timers - {SendJoin} + {LookupNew};
    } else if elected == env.my {
      var list := if n.reps[0].kind.RingRep? then Flatten(n.membership) else n.members;
      BringNamed(env.my, list, [], n.reps, []);
      assert n.reps + [] == n.reps && RepIds(n.reps) + RepIds([]) == RepIds(n.reps);
      RepsOk(env, n);
      hide Inv, Brings, TimersOk, EnvOk, RepsKnown, Bring, SmallestRep;
      FormedHere(env, n, OwnMembers(env, n), n.reps);
    } else {
      InsertsCover(env.cn, [], n.reps[1..]);
      assert before.timers == n.timers + {SendJoin, FormOrFailTimer};
      AgainTimers(n);
      hide Inv, TimersOk, EnvOk, RepsKnown, SmallestRep, InsertReps;
      forall j | |n.reps| <= MAX_REPS && 1 <= j < |n.reps|
        ensures Covers(n'.potential, n.reps[j].seg)
      {
        assert n.reps[1..][j - 1] == n.reps[j];
      }
    }
  }

  lemma AgainTimers(n: Node)
    requires TimersOk(n.(timers := n.timers + {FormOrFailTimer})) && n.phase.Gather? && !n.alive
    ensures n.timers - {ScastAlive, LookupNew} + {SendJoin, FormOrFailTimer} == n.timers + {FormOrFailTimer}
  {
  }

  lemma RepsOk(env: Env, n: Node)
    requires Inv(env, n.(timers := n.timers + {FormOrFailTimer}))
    ensures RepsKnown(env.cn, n.reps)
  {
  }

  lemma TimerReacts(env: Env, n: Node, t: Timer, missing: bool)
    requires EnvOk(env) && Inv(env, n) && t in n.timers
    ensures Fire(env, n, t, missing).Go? && OnTimer(env, n, t, missing, Fire(env, n, t, missing).value)
  {
    var n1 := n.(timers := n.timers - {t});
    assert n1.timers + {t} == n.timers;
    assert n1.(timers := n1.timers + {t}) == n;
    match t
    case TokenLossTimer =>
      LossExactly(env, n1);
      hide LooksFor, TokenLoss;
    case GatherOrRepresented =>
      ComesFirstMeans(env, n.members);
      FireKeeps(env, n, t, missing);
      SegTimers(n);
    case ShiftToSegTimer =>
      RepresentedTimers(n);
      assert n1.timers == {};
    case FormOrFailTimer => FormOrFailReacts(env, n1);
    case LookupNew =>
      assert Leads(env, n1.membership);
      LookupReacts(env, n1, missing);
    case _ =>
  }

  lemma SegTimers(n: Node)
    requires TimersOk(n) && AliveOk(n) && n.phase.Seg?
    ensures n.timers - {GatherOrRepresented} == {ScastAlive} && !n.alive
  {
    RepresentedTimers(n);
    assert forall t :: t in n.timers ==> t in {ScastAlive, GatherOrRepresented} by {
      forall t | t in n.timers
        ensures t in {ScastAlive, GatherOrRepresented}
      {
        match t
        case TokenLossTimer =>
        case ScastAlive =>
        case GatherOrRepresented =>
        case ShiftToSegTimer =>
        case SendJoin =>
        case FormOrFailTimer =>
        case LookupNew =>
        case TokenHurry =>
      }
    }
  }

  /** In every state that keeps the invariant, every event that is possible does what Reacts says. */
  lemma StepReacts(env: Env, n: Node, e: Event)
    requires EnvOk(env) && Inv(env, n) && Possible(env, n, e)
    ensures Step(env, n, e).Go? && Reacts(env, n, e, Step(env, n, e).value)
  {
    hide EnvOk, HandleAlive, HandleJoin, HandleRefer, HandleForm1, HandleForm2, HandlePacket, HandleRegularToken, Fire, Lookup,
      OnAlive, OnJoin, OnRefer, OnForm1, OnForm2, OnPacket, OnToken, OnTimer;
    match e
    case AliveMsg(sender) => AliveReacts(env, n, sender);
    case JoinMsg(sender, reps) => JoinReacts(env, n, sender, reps);
    case ReferMsg(id, kind) => ReferReacts(env, n, id, kind);
    case ForeignMsg(missing) => ForeignReacts(env, n, missing);
    case Form1(t) => Form1Reacts(env, n, t);
    case Form2(expected, future) => Form2Reacts(env, n, expected, future);
    case RingPacket => PacketReacts(env, n);
    case RegularToken(installs, tooMany) => TokenReacts(env, n, installs, tooMany);
    case Fires(t, missing) => TimerReacts(env, n, t, missing);
  }

  lemma ForeignReacts(env: Env, n: Node, missing: bool)
    requires Inv(env, n)
    ensures OnLookup(env, n, missing, if n.phase.Op? && Leads(env, n.membership) then Lookup(env, n, missing) else n)
  {
    if n.phase.Op? && Leads(env, n.membership) {
      assert TimersOk(n.(timers := n.timers + {LookupNew}));
      LookupReacts(env, n, missing);
      assert (n.timers + {LookupNew}) * {TokenHurry} == n.timers * {TokenHurry};
    }
  }

  /** The same over runs. */
  lemma RunsReact(env: Env, trace: seq<Node>, i: nat, e: Event)
    requires Run(env, trace) && i < |trace| && Possible(env, trace[i], e)
    ensures Shape(env, trace[i]) && env.seg < |env.cn| && (e.JoinMsg? ==> e.reps != [])
    ensures Step(env, trace[i], e).Go? && Reacts(env, trace[i], e, Step(env, trace[i], e).value)
  {
    RunKeepsInv(env, trace, i);
    ShapeOk(env, trace[i]);
    StepReacts(env, trace[i], e);
    hide Step, Reacts;
  }

  lemma ShapeOk(env: Env, n: Node)
    requires EnvOk(env) && Inv(env, n)
    ensures Shape(env, n)
  {
  }
}

/** The membership handlers as the program runs them: fields changed in place, lists walked by
    loops. Each is proved equal to the function of Membership that specifies it; `ok` is false
    where the program reaches an EXIT alarm. */
module MembershipDaemon {
  import opened Outcomes
  import opened Configuration
  import M = Membership

  /** Insert_rep, on a list that the caller keeps. */
  method InsertRep(cn: Conf, r: seq<M.Rep>, rep: M.Rep) returns (ok: bool, r1: seq<M.Rep>)
    ensures ok <==> M.InsertRep(cn, r, rep).Go?
    ensures ok ==> r1 == M.InsertRep(cn, r, rep).value
  {
    var s := SegmentOf(cn, rep.id);
    if s < 0 {
      return false, r;
    }
    var i := 0;
    while i < |r|
      invariant 0 <= i <= |r| && M.Settle(r, rep, s, i) == M.Settle(r, rep, s, 0)
    {
      if r[i].seg == s {
        if rep.kind.PotentialRep? {
          return true, r;
        }
        if r[i].kind.PotentialRep? {
          return true, r[i := r[i].(kind := rep.kind, id := rep.id)];
        }
        if r[i].id == rep.id {
          return true, r[i := r[i].(kind := rep.kind)];
        }
      }
      i := i + 1;
    }
    return true, if |r| == M.MAX_REPS then r else r + [rep];
  }

  method InsertReps(cn: Conf, r: seq<M.Rep>, more: seq<M.Rep>) returns (ok: bool, r1: seq<M.Rep>)
    ensures ok <==> M.InsertReps(cn, r, more).Go?
    ensures ok ==> r1 == M.InsertReps(cn, r, more).value
  {
    hide M.InsertRep;
    ok, r1 := true, r;
    assert more[0..] == more;
    for i := 0 to |more|
      invariant ok && M.InsertReps(cn, r1, more[i..]) == M.InsertReps(cn, r, more)
    {
      assert more[i..][1..] == more[i + 1..];
      ok, r1 := InsertRep(cn, r1, more[i]);
      if !ok {
        return;
      }
    }
  }

  /** Smallest_rep. */
  method SmallestRep(cn: Conf, r: seq<M.Rep>) returns (ok: bool, index: nat)
    requires r != []
    ensures ok <==> M.SmallestRep(cn, r).Go?
    ensures ok ==> index < |r| && index == M.SmallestRep(cn, r).value
  {
    hide M.Position;
    index := 0;
    for i := 1 to |r|
      invariant index < i && M.Scan(cn, r, index, i) == M.SmallestRep(cn, r)
    {
      if r[index].kind.PotentialRep? {
        return false, index;
      }
      if M.Better(cn, r[i], r[index]) {
        index := i;
      }
    }
    return true, index;
  }

  lemma BringStep(my: int, list: seq<int>, visited: seq<int>, others: set<int>, i: nat, kept: seq<int>)
    requires i < |list|
    ensures
      var x := list[i];
      kept + M.Bring(my, list[i..], visited, others)
      == (if x in visited || (x in others && x != my) then kept else kept + [x]) + M.Bring(my, list[i + 1..], visited, others)
  {
    assert list[i..][1..] == list[i + 1..];
  }

  lemma BringDone(my: int, list: seq<int>, visited: seq<int>, others: set<int>)
    requires list == []
    ensures M.Bring(my, list, visited, others) == []
  {
  }

  /** Sort_reps. */
  method SortReps(cn: Conf, r: seq<M.Rep>) returns (ok: bool, sorted: seq<M.Rep>)
    ensures ok <==> M.SortReps(cn, r).Go?
    ensures ok ==> sorted == M.SortReps(cn, r).value
  {
    sorted := [];
    var rest := r;
    NoneBefore(M.SortReps(cn, r));
    while rest != []
      invariant M.SortReps(cn, r) == Behind(sorted, M.SortReps(cn, rest))
      decreases |rest|
    {
      var index;
      ok, index := SmallestRep(cn, rest);
      if !ok {
        return false, [];
      }
      var n := |rest| - 1;
      ghost var more := M.SortReps(cn, rest[index := rest[n]][..n]);
      OneMore(sorted, rest[index], more);
      sorted := sorted + [rest[index]];
      rest := rest[index := rest[n]][..n];
    }
    assert sorted + [] == sorted;
    return true, sorted;
  }

  function Behind(s: seq<M.Rep>, o: Outcome<seq<M.Rep>>): Outcome<seq<M.Rep>> {
    match o
    case Go(t) => Go(s + t)
    case Exit(reason) => Exit(reason)
  }

  lemma NoneBefore(o: Outcome<seq<M.Rep>>)
    ensures Behind([], o) == o
  {
    if o.Go? {
      assert [] + o.value == o.value;
    }
  }

  lemma OneMore(s: seq<M.Rep>, x: M.Rep, o: Outcome<seq<M.Rep>>)
    ensures o.Go? ==> Behind(s, Go([x] + o.value)) == Behind(s + [x], o)
    ensures o.Exit? ==> Behind(s, o) == Behind(s + [x], o)
  {
    if o.Go? {
      assert s + ([x] + o.value) == s + [x] + o.value;
    }
  }


  class Daemon {
    const env: M.Env
    var phase: M.Phase
    var alive: bool
    var timers: set<M.Timer>
    var members: seq<int>
    var reps: seq<M.Rep>
    var potential: seq<M.Rep>
    var membership: Conf
    var future: Conf
    var commit: seq<int>

    function View(): M.Node
      reads this
    {
      M.Node(phase, alive, timers, members, reps, potential, membership, future, commit)
    }

    /** Memb_init. */
    constructor (env: M.Env)
      requires env.seg < |env.cn|
      ensures this.env == env && View() == M.Start(env)
    {
      this.env := env;
      phase, alive, timers := M.Seg, false, {M.ScastAlive, M.GatherOrRepresented};
      members, reps, potential := [env.my], [M.Rep(env.my, M.SegRep, env.seg)], [];
      membership, future, commit := M.Alone(env), M.Alone(env), [env.my];
    }

    method ShiftToSeg()
      modifies this
      ensures View() == M.ShiftToSeg(env, old(View()))
    {
      phase := M.Seg;
      members := [env.my];
      timers := timers + {M.ScastAlive, M.GatherOrRepresented};
    }

    method ShiftToGather()
      modifies this
      ensures View() == M.ShiftToGather(env, old(View()))
    {
      phase := M.Gather;
      reps := [M.Rep(env.my, if alive then M.RingRep else M.SegRep, env.seg)];
      timers := timers - {M.ScastAlive, M.LookupNew} + {M.SendJoin, M.FormOrFailTimer};
    }

    method ShiftToRepresented()
      modifies this
      ensures View() == M.ShiftToRepresented(old(View()))
    {
      phase := M.Represented;
      timers := timers - {M.ScastAlive, M.GatherOrRepresented} + {M.ShiftToSegTimer};
    }

    /** The loop over the segments that Memb_token_loss runs for its membership or the future one;
        `kind` is what temp_rep has been left with. */
    method FindLookouts(memb: Conf, kind: M.Kind) returns (found: seq<M.Rep>)
      requires |memb| == |env.cn|
      ensures found == M.Lookouts(env, memb, 0, kind)
    {
      found := [];
      ghost var all := M.Lookouts(env, memb, 0, kind);
      assert [] + all == all;
      for i := 0 to |env.cn|
        invariant found + M.Lookouts(env, memb, i, kind) == all
      {
        ghost var rest := M.Lookouts(env, memb, i + 1, kind);
        if i != env.seg && (memb[i] != [] || env.cn[i] != []) {
          var rep := M.Rep(if memb[i] != [] then memb[i][0] else env.cn[i][0], kind, i);
          assert found + ([rep] + rest) == (found + [rep]) + rest;
          found := found + [rep];
        } else {
          assert [] + rest == rest;
        }
      }
      assert found + [] == all;
    }

    /** Memb_token_loss. */
    method TokenLoss() returns (ok: bool)
      requires M.Shape(env, View())
      modifies this
      ensures ok <==> M.TokenLoss(env, old(View())).Go?
      ensures ok ==> View() == M.TokenLoss(env, old(View())).value
    {
      hide M.InsertReps, M.Lookouts;
      match phase {
        case Op =>
          commit := [env.my];
          var found := FindLookouts(membership, M.PotentialRep);
          ok, potential := InsertReps(env.cn, [], found);
        case Seg =>
          ok := false;
        case Represented =>
          ok := false;
        case Gather =>
          if !alive {
            return false;
          }
          commit := [env.my];
          ok, potential := InsertReps(env.cn, [], reps[1..]);
          if ok {
            var found := FindLookouts(membership, if |reps| > 1 then reps[|reps| - 1].kind else M.PotentialRep);
            ok, potential := InsertReps(env.cn, potential, found);
          }
        case Form =>
          ok := true;
        case Evs =>
          var found := FindLookouts(future, M.PotentialRep);
          ok, potential := InsertReps(env.cn, [], found);
      }
      if ok {
        ShiftToSeg();
        alive := false;
        timers := timers - {M.TokenLossTimer, M.SendJoin, M.FormOrFailTimer, M.TokenHurry, M.LookupNew};
        membership := M.Alone(env);
      }
    }

    method InsertMember(id: int)
      modifies `members
      ensures members == M.InsertMember(old(members), id)
    {
      if id !in members && |members| != M.MAX_PROCS_RING {
        members := members + [id];
      }
    }

    method LoseToken(sender: int) returns (ok: bool)
      requires M.Shape(env, View())
      modifies this
      ensures ok <==> M.TokenLoss(env, old(View())).Go?
      ensures ok ==>
                var n := M.TokenLoss(env, old(View())).value;
                View() == n.(members := M.InsertMember(n.members, sender))
    {
      ok := TokenLoss();
      if ok {
        InsertMember(sender);
      }
    }

    method HandleAlive(sender: int) returns (ok: bool)
      requires M.Shape(env, View())
      modifies this
      ensures ok <==> M.HandleAlive(env, old(View()), sender).Go?
      ensures ok ==> View() == M.HandleAlive(env, old(View()), sender).value
    {
      hide M.TokenLoss, M.InsertMember, InConf;
      ok := true;
      match phase
      case Op =>
        if InConf(membership, sender) {
          ok := LoseToken(sender);
        }
      case Seg =>
        InsertMember(sender);
      case Represented =>
        timers := timers + {M.ShiftToSegTimer};
      case Gather =>
        if !alive {
          InsertMember(sender);
        } else if InConf(membership, sender) {
          ok := LoseToken(sender);
        }
      case Form =>
      case Evs =>
        if InConf(future, sender) {
          ok := LoseToken(sender);
        }
    }

    method HandleJoin(sender: int, theirs: seq<M.Rep>) returns (ok: bool)
      requires M.Shape(env, View()) && theirs != []
      modifies this
      ensures ok <==> M.HandleJoin(env, old(View()), sender, theirs).Go?
      ensures ok ==> View() == M.HandleJoin(env, old(View()), sender, theirs).value
    {
      hide M.TokenLoss, M.InsertMember, InConf, M.InsertRep, M.InsertReps, M.SmallestRep, Leader;
      ok := true;
      var myRep := SegmentOf(env.cn, sender) == env.seg && theirs[0].kind.SegRep?;
      match phase
      case Op =>
        if !InConf(membership, sender) {
          if Leader(membership) == Some(env.my) {
            potential := [theirs[0]];
            members := [];
            ShiftToGather();
          }
        } else if |env.cn| > 1 {
          ok := TokenLoss();
        }
      case Seg =>
        if myRep {
          ShiftToRepresented();
        }
      case Represented =>
        if myRep {
          timers := timers + {M.ShiftToSegTimer};
        }
      case Gather =>
        ok := GatherReps(theirs);
      case Form =>
      case Evs =>
        if InConf(future, sender) {
          ok := LoseToken(sender);
        }
    }

    /** Memb_handle_join in GATHER. */
    method GatherReps(theirs: seq<M.Rep>) returns (ok: bool)
      requires M.Shape(env, View()) && theirs != [] && phase.Gather?
      modifies `reps, `potential, `timers
      ensures ok <==> M.HandleJoin(env, old(View()), 0, theirs).Go?
      ensures ok ==> View() == M.HandleJoin(env, old(View()), 0, theirs).value
    {
      hide M.TokenLoss, M.InsertRep, M.InsertReps, M.SmallestRep, SegmentOf;
      ok, reps := InsertRep(env.cn, reps, theirs[0]);
      if !ok {
        return;
      }
      ok, potential := InsertReps(env.cn, potential, theirs);
      if !ok {
        return;
      }
      var smallest;
      ok, smallest := SmallestRep(env.cn, reps);
      if ok && reps[smallest].id == theirs[0].id {
        timers := timers + {M.FormOrFailTimer};
      }
    }

    /** Form_or_fail, up to the creation of the form token, which the caller does if `create`. */
    method FormOrFail() returns (ok: bool, create: bool)
      requires M.Shape(env, View())
      modifies this
      ensures ok && !create ==> M.FormOrFail(env, old(View())) == Outcome<M.Node>.Go(View())
      ensures ok && create ==> View() == old(View()) && M.FormOrFail(env, View()) == M.CreateForm1(env, View())
      ensures !ok ==> M.FormOrFail(env, old(View())).Exit?
    {
      hide M.InsertReps, M.SmallestRep, M.CreateForm1;
      create := false;
      var smallest;
      ok, smallest := SmallestRep(env.cn, reps);
      if !ok {
        return;
      }
      if reps[smallest].id == env.my && !(alive && |reps| == 1) {
        create := true;
      } else if alive {
        timers := timers - {M.SendJoin} + {M.LookupNew};
        phase := M.Op;
      } else {
        var kept;
        ok, kept := InsertReps(env.cn, [], reps[1..]);
        if ok {
          members := [env.my];
          potential := kept;
          ShiftToGather();
        }
      }
    }

    /** The filtering loops of Create_form1 and Fill_form1. */
    method Strike(list: seq<int>, visited: seq<int>, others: set<int>) returns (kept: seq<int>)
      ensures kept == M.Bring(env.my, list, visited, others)
    {
      hide M.Bring;
      kept := [];
      assert list[0..] == list;
      for i := 0 to |list|
        invariant kept + M.Bring(env.my, list[i..], visited, others) == M.Bring(env.my, list, visited, others)
      {
        BringStep(env.my, list, visited, others, i, kept);
        if !(list[i] in visited || (list[i] in others && list[i] != env.my)) {
          kept := kept + [list[i]];
        }
      }
      BringDone(env.my, list[|list|..], visited, others);
    }

    /** Create_form1: the daemon goes to FORM, and its token starts with its own members. */
    method CreateForm1() returns (ok: bool)
      requires M.Shape(env, View())
      modifies this
      ensures ok <==> M.CreateForm1(env, old(View())).Go?
      ensures ok ==> View() == M.CreateForm1(env, old(View())).value
    {
      hide M.InsertReps, M.Elsewhere, M.Bring, Flatten, M.RepIds;
      var list := if reps[0].kind.RingRep? then Flatten(membership) else members;
      var own := Strike(list, [], M.RepIds(reps));
      var kept;
      ok, kept := InsertReps(env.cn, [], M.Elsewhere(reps, env.seg));
      if !ok {
        return;
      }
      members, potential := own, kept;
      timers := timers - {M.SendJoin, M.FormOrFailTimer, M.ShiftToSegTimer, M.TokenHurry} + {M.TokenLossTimer};
      alive := false;
      phase := M.Form;
    }

    /** Fill_form1, with the token as it goes on. */
    method FillForm1(t: M.FormToken) returns (ok: bool, filled: M.Filled)
      requires M.Shape(env, View()) && (phase.Op? || phase.Represented? || phase.Gather?)
      requires phase.Op? ==> Leader(membership) != Some(env.my)
      modifies this
      ensures ok <==> M.HandleForm1(env, old(View()), t).Go?
      ensures ok ==> View() == M.HandleForm1(env, old(View()), t).value
      ensures ok ==> filled == M.FillMembers(env, old(View()), t)
    {
      hide M.InsertReps, M.Elsewhere, M.Bring, Flatten, M.RepIds, Leader;
      ok := true;
      if !phase.Gather? {
        if t.pending == [] || t.pending[0] != env.my {
          return true, M.NotExpected;
        }
        filled := M.Filled(t.(visited := t.visited + [env.my], pending := t.pending[1..]));
      } else {
        if t.next >= |t.reps| || t.reps[t.next].id != env.my || t.pending != [] {
          return true, M.NotExpected;
        }
        if t.reps[t.next].kind.PotentialRep? {
          return false, M.InvalidRep;
        }
        members := Strike(members, t.visited, M.RepIds(t.reps) + M.RepIds(reps));
        var list := if t.reps[t.next].kind.SegRep? then members else Flatten(membership);
        if list == [] {
          filled := M.Malformed;
        } else {
          filled := M.Filled(t.(visited := t.visited + [list[0]], pending := list[1..], next := t.next + 1));
        }
      }
      ok, potential := InsertReps(env.cn, [], M.Elsewhere(t.reps, env.seg));
      if ok {
        timers := timers - {M.SendJoin, M.FormOrFailTimer, M.ShiftToSegTimer, M.TokenHurry} + {M.TokenLossTimer};
        alive := false;
        phase := M.Form;
      }
    }
  }
}

/** What the ring gets done: once nobody sends and nobody misses anything, three rotations later
    every daemon knows that everything is stable and has handed all of it up, SAFE packets included. */
module RingProgress {
  import opened Outcomes
  import opened Protocol
  import opened Ring
  import opened RingSteps
  import opened RingStart
  import W = WindowInvariant
  import A = AruCore

  // ----- the acknowledgements alone

  /** Everybody has everything. */
  ghost predicate Full(c: A.Core) {
    |c.ring| > 0 && forall i :: 0 <= i < |c.ring| ==> c.ring[i].my == c.seqNo
  }

  /** Member j may raise the token's aru when it gets the token. */
  predicate Raises(c: A.Core, j: nat)
    requires j < |c.ring|
  {
    c.ring[j].id == c.lastId || c.ring[j].mark == c.aru
  }

  /** The token's aru is not below its seq, or somebody is there to raise it again. */
  ghost predicate CanRise(c: A.Core) {
    c.aru < c.seqNo ==> exists j :: 0 <= j < |c.ring| && Raises(c, j)
  }

  /** The aru has to be brought to the top yet; whoever can do that is visited in time. */
  ghost predicate Raising(c: A.Core, k: nat) {
    && k > 2 * |c.ring|
    && (c.aru < c.seqNo ==> exists j :: 0 <= j < |c.ring| && Raises(c, j) && 2 * |c.ring| + j < k)
  }

  /** The aru is at the top, and the last of the ring have forwarded it like that. */
  ghost predicate Forwarding(c: A.Core, k: nat) {
    && c.aru == c.seqNo && |c.ring| <= k
    && forall i :: 0 <= i < |c.ring| && k - |c.ring| <= i ==> c.ring[i].prev == c.seqNo
  }

  /** All have forwarded it, and the last of the ring have it for their Aru. */
  ghost predicate Settling(c: A.Core, k: nat) {
    && c.aru == c.seqNo
    && (forall i :: 0 <= i < |c.ring| ==> c.ring[i].prev == c.seqNo)
    && forall i :: 0 <= i < |c.ring| && k <= i ==> c.ring[i].aru == c.seqNo
  }

  /** k visits are enough for everybody's Aru to reach the top. */
  ghost predicate Enough(c: A.Core, k: nat) {
    Raising(c, k) || Forwarding(c, k) || Settling(c, k)
  }

  lemma StartsEnough(c: A.Core)
    requires Full(c) && CanRise(c)
    ensures Enough(c, 3 * |c.ring|)
  {
  }

  /** The others shift forward, the holder goes to the back. */
  lemma Shifted(c: A.Core)
    requires |c.ring| > 0
    ensures
      var d, n := A.Visit(c, c.seqNo, c.seqNo), |c.ring|;
      && |d.ring| == n && d.seqNo == c.seqNo
      && (forall i :: 0 <= i < n - 1 ==> d.ring[i] == c.ring[i + 1])
      && d.ring[n - 1].id == c.ring[0].id && d.ring[n - 1].my == c.seqNo
      && d.ring[n - 1].prev == d.aru && d.ring[n - 1].aru == A.Min(d.aru, c.ring[0].prev)
      && (if A.MayReset(c) || c.aru > c.seqNo then d.aru == c.seqNo && d.lastId == c.ring[0].id
          else d.aru == c.aru && d.lastId == c.lastId)
  {
  }

  lemma FullVisit(c: A.Core, k: nat)
    requires Full(c) && Enough(c, k) && k > 0
    ensures Full(A.Visit(c, c.seqNo, c.seqNo)) && Enough(A.Visit(c, c.seqNo, c.seqNo), k - 1)
  {
    Shifted(c);
    var d, n := A.Visit(c, c.seqNo, c.seqNo), |c.ring|;
    var reset := A.MayReset(c) || c.aru > c.seqNo;
    assert c.aru == c.seqNo ==> reset;
    hide A.Visit, A.MayReset;
    if Settling(c, k) {
      assert Settling(d, k - 1);
    } else if Forwarding(c, k) {
      assert if k > n then Forwarding(d, k - 1) else Settling(d, k - 1);
    } else if d.aru == c.seqNo {
      assert Forwarding(d, k - 1);
    } else {
      RaisingGoesOn(c, d, k);
    }
  }

  lemma RaisingGoesOn(c: A.Core, d: A.Core, k: nat)
    requires Raising(c, k) && c.aru < c.seqNo == d.seqNo && d.aru == c.aru && d.lastId == c.lastId && |c.ring| == |d.ring| > 0
    requires !Raises(c, 0) && forall i :: 0 <= i < |c.ring| - 1 ==> d.ring[i] == c.ring[i + 1]
    ensures Raising(d, k - 1)
  {
    var j :| 0 <= j < |c.ring| && Raises(c, j) && 2 * |c.ring| + j < k;
    assert Raises(d, j - 1);
  }

  /** Otherwise the aru stays where it is for ever. */
  lemma StuckVisit(c: A.Core)
    requires Full(c) && 0 <= c.aru && !CanRise(c)
    ensures
      var d := A.Visit(c, c.seqNo, c.seqNo);
      Full(d) && !CanRise(d) && d.aru == c.aru && d.seqNo == c.seqNo
  {
    Shifted(c);
    var d := A.Visit(c, c.seqNo, c.seqNo);
    assert !Raises(c, 0);
    assert d.ring[|c.ring| - 1].mark == -1 && d.lastId == c.lastId && d.aru == c.aru;
    hide A.Visit;
    forall j | 0 <= j < |d.ring|
      ensures !Raises(d, j)
    {
      if j < |d.ring| - 1 {
        assert d.ring[j] == c.ring[j + 1] && !Raises(c, j + 1);
      } else {
        assert d.ring[j].id == c.ring[0].id;
      }
    }
  }

  lemma NoneLeft(c: A.Core)
    requires Full(c) && Enough(c, 0)
    ensures forall i :: 0 <= i < |c.ring| ==> c.ring[i].aru == c.seqNo
  {
  }

  // ----- the ring

  /** Nobody sends in this step. */
  predicate Unsending(step: Step) {
    step.PassToken? ==> step.plan.count == 0
  }

  /** Everybody has everything that was sent. */
  ghost predicate Complete(s: Sys) {
    Inv(s) && forall i :: 0 <= i < |s.ring| ==> s.ring[i].daemon.win.myAru == |s.history|
  }

  lemma CompleteIsFull(s: Sys)
    requires Inv(s)
    ensures s.Up? && (Complete(s) <==> Full(ToCore(s)))
    ensures 0 <= ToCore(s).aru && |ToCore(s).ring| == |s.ring| > 0
  {
    hide W.Inv, MemberOk, ArqOk, Fits, RequestsOk, FlowSum, A.Ordinary, A.Small, A.Fresh, A.Covered;
    var c := ToCore(s);
    assert forall i :: 0 <= i < |s.ring| ==> c.ring[i].my == s.ring[i].daemon.win.myAru;
  }

  lemma QuietToken(s: Sys, plan: Plan, hurried: bool, l: Limits)
    requires Complete(s) && LimitsOk(l) && Enabled(s, PassToken(plan, hurried), l) && plan.count == 0
    ensures
      var s', c := Apply(s, PassToken(plan, hurried), l), ToCore(s);
      && Inv(s') && s'.history == s.history && |s'.ring| == |s.ring|
      && ToCore(s') == A.Visit(c, c.seqNo, c.seqNo)
  {
    PassKeepsInv(s, plan, hurried, l);
    hide Inv, A.Inv, W.Inv, HandleToken, A.Visit, Answerable, PlanOk, Fits, ArqOk, SeenOk, FlowSum, RequestsOk;
    var m, t := s.ring[0], Copy(s.token, hurried);
    VisitSucceeds(s, plan, hurried);
    VisitFacts(s, plan, hurried);
    var r := HandleToken(m.leader, m.daemon, t, plan).value;
    var s' := Apply(s, PassToken(plan, hurried), l);
    assert r.sent == [] && s'.history == s.history + [] == s.history;
    assert s.token.num == |s.history| by { SeqIsHistory(s); }
    RotateCells(s.ring, Member(r.daemon, m.leader, m.seen + [t]));
  }

  lemma SeqIsHistory(s: Sys)
    requires Inv(s)
    ensures s.token.num == |s.history|
  {
    hide A.Inv, W.Inv, ArqOk, Fits, FlowSum, RequestsOk;
  }

  /** Packets that arrive now have arrived before. */
  lemma QuietArrival(s: Sys, a: nat, q: int, l: Limits)
    requires Complete(s) && Enabled(s, ReceivePacket(a, q), l)
    ensures Apply(s, ReceivePacket(a, q), l) == s
  {
    RunMember(s, a);
    var w := s.ring[a].daemon.win;
    DeliveredUpTo(w, s.history);
    hide Inv, W.Inv;
    assert w.myAru == |s.history|;
    assert HandlePacket(w, q, s.history[q - 1]) == Outcome<Window>.Go(w);
  }

  lemma QuietSubmit(s: Sys, a: nat, m: Message, l: Limits)
    requires Complete(s) && Enabled(s, Submit(a, m), l)
    ensures
      var s' := Apply(s, Submit(a, m), l);
      Inv(s') && s'.history == s.history && |s'.ring| == |s.ring| && ToCore(s') == ToCore(s)
  {
    SubmitKeepsInv(s, a, m, l);
    hide Inv;
    var d := s.ring[a].daemon;
    LocalCells(s.ring, a, d.(queue := d.queue.(messages := d.queue.messages + [m])));
  }

  function VisitsIn(steps: seq<Step>): nat {
    if steps == [] then 0
    else VisitsIn(steps[..|steps| - 1]) + (if steps[|steps| - 1].PassToken? then 1 else 0)
  }

  /** From s to t by these steps, none of which sends anything. */
  ghost predicate QuietRun(s: Sys, steps: seq<Step>, t: Sys, l: Limits)
    decreases |steps|
  {
    if steps == [] then t == s
    else
      var n := |steps| - 1;
      exists u :: QuietRun(s, steps[..n], u, l) && Enabled(u, steps[n], l) && Unsending(steps[n]) && t == Apply(u, steps[n], l)
  }

  /** What is kept as long as nobody sends: the ring stays complete, and its acknowledgements are
      those of so many visits. */
  ghost predicate After(s: Sys, visits: nat, t: Sys) {
    && Inv(s) && Complete(t) && t.history == s.history && |t.ring| == |s.ring|
    && ToCore(t) == Visits(ToCore(s), visits)
  }

  function Visits(c: A.Core, k: nat): (d: A.Core)
    requires |c.ring| > 0
    ensures |d.ring| == |c.ring| && d.seqNo == c.seqNo
  {
    if k == 0 then c
    else
      var d := Visits(c, k - 1);
      A.Visit(d, d.seqNo, d.seqNo)
  }

  lemma QuietStep(s: Sys, k: nat, u: Sys, step: Step, l: Limits)
    requires After(s, k, u) && LimitsOk(l) && Enabled(u, step, l) && Unsending(step)
    ensures After(s, k + (if step.PassToken? then 1 else 0), Apply(u, step, l))
  {
    hide Inv, A.Visit, ToCore, Enabled, Apply;
    CompleteIsFull(u);
    match step
    case PassToken(plan, hurried) =>
      QuietToken(u, plan, hurried, l);
      CompleteIsFull(Apply(u, step, l));
      StillFull(ToCore(u));
    case StaleToken(i, j) =>
      StaleIsIgnored(u, i, j, l);
    case ReceivePacket(a, q) =>
      QuietArrival(u, a, q, l);
    case Submit(a, m) =>
      QuietSubmit(u, a, m, l);
      CompleteIsFull(Apply(u, step, l));
  }

  lemma StillFull(c: A.Core)
    requires Full(c)
    ensures Full(A.Visit(c, c.seqNo, c.seqNo))
  {
    Shifted(c);
    hide A.Visit;
  }

  lemma {:induction false} QuietRunKeeps(s: Sys, steps: seq<Step>, t: Sys, l: Limits)
    requires Complete(s) && LimitsOk(l) && QuietRun(s, steps, t, l)
    ensures After(s, VisitsIn(steps), t)
    decreases |steps|
  {
    hide Complete, Inv, Enabled, Apply, Unsending, ToCore, After;
    if steps == [] {
      AfterNothing(s);
    } else {
      var n := |steps| - 1;
      var u :| QuietRun(s, steps[..n], u, l) && Enabled(u, steps[n], l) && Unsending(steps[n]) && t == Apply(u, steps[n], l);
      QuietRunKeeps(s, steps[..n], u, l);
      QuietStep(s, VisitsIn(steps[..n]), u, steps[n], l);
    }
  }

  lemma AfterNothing(s: Sys)
    requires Complete(s)
    ensures After(s, 0, s)
  {
    CompleteIsFull(s);
    hide Inv, ToCore;
  }

  lemma {:induction false} VisitsSettle(c: A.Core, k: nat, m: nat)
    requires Full(c) && Enough(c, k + m)
    ensures Full(Visits(c, m)) && Enough(Visits(c, m), k)
    decreases m
  {
    hide Enough, Full, A.Visit;
    if m > 0 {
      VisitsSettle(c, k + 1, m - 1);
      FullSize(c);
      FullVisit(Visits(c, m - 1), k + 1);
    }
  }

  lemma FullSize(c: A.Core)
    requires Full(c)
    ensures |c.ring| > 0
  {
  }

  lemma {:induction false} VisitsStuck(c: A.Core, m: nat)
    requires Full(c) && 0 <= c.aru && !CanRise(c)
    ensures Full(Visits(c, m)) && !CanRise(Visits(c, m)) && Visits(c, m).aru == c.aru
  {
    hide Full, CanRise, A.Visit;
    if m > 0 {
      VisitsStuck(c, m - 1);
      FullSize(c);
      StuckVisit(Visits(c, m - 1));
    }
  }

  // ----- the theorem

  /** The daemon knows that everything is stable, has handed it all up and has nothing left. */
  ghost predicate AtRest(w: Window, h: seq<Packet>) {
    && w.aru == w.lastDelivered == w.myAru == |h| && w.slots == map[]
    && W.Ordered(w.log) == W.OrderedPrefix(h, |h|)
    && forall q :: q in W.Numbers(w.log) <==> 0 < q <= |h|
  }

  ghost predicate Settled(s: Sys) {
    s.Up? && forall i :: 0 <= i < |s.ring| ==> AtRest(s.ring[i].daemon.win, s.history)
  }

  lemma StableIsAtRest(w: Window, h: seq<Packet>)
    requires W.Inv(w, h) && w.aru == |h|
    ensures AtRest(w, h)
  {
    assert forall q :: q !in w.slots;
  }

  lemma TopIsSettled(t: Sys)
    requires Inv(t) && forall i :: 0 <= i < |t.ring| ==> ToCore(t).ring[i].aru == ToCore(t).seqNo
    ensures Settled(t)
  {
    SeqIsHistory(t);
    hide Inv, AtRest;
    forall i | 0 <= i < |t.ring|
      ensures AtRest(t.ring[i].daemon.win, t.history)
    {
      RunMember(t, i);
      assert ToCore(t).ring[i].aru == t.ring[i].daemon.win.aru;
      StableIsAtRest(t.ring[i].daemon.win, t.history);
    }
  }

  lemma BelowTopIsNot(t: Sys)
    requires Inv(t) && ToCore(t).aru < ToCore(t).seqNo
    ensures !Settled(t)
  {
    SeqIsHistory(t);
    hide W.Inv, MemberOk, ArqOk, Fits, RequestsOk, FlowSum, A.Ordinary, A.Small, A.Fresh, A.Covered;
    assert ToCore(t).ring[0].aru <= ToCore(t).aru;
  }

  /** Once nobody sends and everybody has everything, the ring comes to rest within three rotations,
      with every packet stable and handed up everywhere, if and only if the token's aru can rise:
      it is not below seq, or some daemon is its last writer or has it for its Set_aru. Otherwise
      the ring never comes to rest. */
  lemma RunsComeToRest(trace: seq<Sys>, l: Limits, i: nat, steps: seq<Step>, t: Sys)
    requires Run(trace, l) && LimitsOk(l) && HarmlessStart(trace[0]) && i < |trace|
    requires trace[i].Up? && forall a :: 0 <= a < |trace[i].ring| ==> trace[i].ring[a].daemon.win.myAru == |trace[i].history|
    requires QuietRun(trace[i], steps, t, l) && 3 * |trace[i].ring| <= VisitsIn(steps)
    ensures Settled(t) <==> CanRise(ToCore(trace[i]))
  {
    var s := trace[i];
    RunKeepsInv(trace, l, i);
    assert Complete(s);
    hide Run, HarmlessStart, Inv, Complete, QuietRun, VisitsIn, Settled, CanRise, ToCore, Enough, Full;
    var c, m := ToCore(s), VisitsIn(steps);
    QuietRunKeeps(s, steps, t, l);
    AfterMeans(s, m, t);
    CompleteIsFull(s);
    if CanRise(c) {
      StartsEnough(c);
      EnoughGrows(c, 3 * |c.ring|, m);
      VisitsSettle(c, 0, m);
      NoneLeft(ToCore(t));
      TopIsSettled(t);
    } else {
      VisitsStuck(c, m);
      StuckIsBelow(ToCore(t));
      BelowTopIsNot(t);
    }
  }

  lemma AfterMeans(s: Sys, visits: nat, t: Sys)
    requires After(s, visits, t)
    ensures Inv(t) && t.Up? && s.Up? && |ToCore(s).ring| > 0 && ToCore(t) == Visits(ToCore(s), visits)
    ensures |t.ring| == |s.ring| == |ToCore(s).ring|
  {
    hide A.Inv, W.Inv, ArqOk, FlowSum, RequestsOk, Fits;
  }

  lemma EnoughGrows(c: A.Core, k: nat, m: nat)
    requires Enough(c, k) && k <= m
    ensures Enough(c, m)
  {
  }

  lemma StuckIsBelow(c: A.Core)
    requires !CanRise(c)
    ensures c.aru < c.seqNo
  {
  }

  // ----- which starts let the aru rise

  /** The most packets that the first visit of a membership can send. */
  function FirstBurst(l: Limits): int {
    if WindowsClosed(l) then 0
    else PACKETS_PER_DATAGRAM * ((if l.window < l.personal then l.window else l.personal) + 1)
  }

  ghost predicate WriterThere(s: Sys) {
    s.Up? && exists j :: 0 <= j < |s.ring| && s.ring[j].daemon.id == s.token.lastId
  }

  /** What can be seen at the start: the aru is 0, a member has written it, or the first holder
      cannot send more packets than it says. */
  ghost predicate RisingStart(s: Sys, l: Limits)
    requires s.Up?
  {
    s.token.aru == 0 || WriterThere(s) || FirstBurst(l) <= s.token.aru
  }

  /** The token has not been anywhere yet. */
  ghost predicate Pristine(s: Sys, l: Limits) {
    && s.Up? && |s.ring| > 0 && s.history == []
    && s.token.num == 0 && s.token.flow == 0 && s.token.rtr == []
    && (s.token.aru == 0 || FirstBurst(l) <= s.token.aru)
    && forall i :: 0 <= i < |s.ring| ==>
         s.ring[i].daemon.win == EMPTY_WINDOW && QueueOk(s.ring[i].daemon.queue) && s.ring[i].seen == []
  }

  ghost predicate Rising(s: Sys, l: Limits) {
    s.Up? ==> WriterThere(s) || Pristine(s, l) || (|s.ring| > 0 && s.token.aru == s.token.num)
  }

  lemma RisingCanRise(s: Sys, l: Limits)
    requires Rising(s, l) && s.Up?
    ensures CanRise(ToCore(s))
  {
    if WriterThere(s) {
      var j :| 0 <= j < |s.ring| && s.ring[j].daemon.id == s.token.lastId;
      assert Raises(ToCore(s), j);
    }
  }

  /** What a visit writes, whatever the state. */
  lemma StampWritten(leader: bool, d: Daemon, t: Token, plan: Plan)
    requires QueueOk(d.queue) && HandleToken(leader, d, t, plan).Go?
    ensures
      var r := HandleToken(leader, d, t, plan).value;
      && r.daemon.id == d.id
      && (r.token.lastId == d.id || (r.token.lastId == t.lastId && r.token.aru == t.aru && t.aru != t.num))
  {
    hide BeforeToken, AfterToken, TakePackets, Missing;
  }

  lemma WriterStays(s: Sys, plan: Plan, hurried: bool, l: Limits)
    requires Enabled(s, PassToken(plan, hurried), l) && (WriterThere(s) || s.token.aru == s.token.num)
    ensures Rising(Apply(s, PassToken(plan, hurried), l), l)
  {
    var m, t := s.ring[0], Copy(s.token, hurried);
    var s' := Apply(s, PassToken(plan, hurried), l);
    if AcceptsArq(m.leader, m.daemon.prevArq, t.arq) && s'.Up? {
      StampWritten(m.leader, m.daemon, t, plan);
      hide HandleToken, Pristine;
      if s'.token.lastId == m.daemon.id {
        assert s'.ring[|s.ring| - 1].daemon.id == s'.token.lastId;
      } else {
        var j :| 0 <= j < |s.ring| && s.ring[j].daemon.id == s.token.lastId;
        assert j > 0 && s'.ring[j - 1] == s.ring[j];
      }
    }
  }

  /** The first visit: whatever it sends, it has all of it. */
  lemma FirstVisitNumbers(d: Daemon, t: Token, sent: seq<Packet>)
    requires d.win == EMPTY_WINDOW && t.num == 0 && t.rtr == []
    ensures BeforeToken(d.win, t, sent).Go?
    ensures
      var w := BeforeToken(d.win, t, sent).value;
      w.highest == w.myAru == |sent|
  {
    EmptyWindowInv([]);
    W.BeforeTokenKeeps(d.win, t, sent, []);
    assert [] + sent == sent;
    hide W.Core, BeforeToken;
  }

  lemma PristineVisit(s: Sys, plan: Plan, hurried: bool, l: Limits)
    requires Pristine(s, l) && Enabled(s, PassToken(plan, hurried), l)
    ensures Rising(Apply(s, PassToken(plan, hurried), l), l)
  {
    var m, t := s.ring[0], Copy(s.token, hurried);
    var d := m.daemon;
    var s' := Apply(s, PassToken(plan, hurried), l);
    var sent := TakePackets(d.id, d.queue, plan.count).0;
    assert CatchUp(d.win, s.token.num) == EMPTY_WINDOW;
    assert plan.count <= FirstBurst(l);
    FirstVisitNumbers(d, t, sent);
    if AcceptsArq(m.leader, m.daemon.prevArq, t.arq) && s'.Up? {
      StampWritten(m.leader, d, t, plan);
      TokenIs(m.leader, d, t, plan);
      hide HandleToken, BeforeToken, Pristine, PlanOk, TakePackets;
      if s'.token.lastId == d.id {
        assert s'.ring[|s.ring| - 1].daemon.id == s'.token.lastId;
      }
    }
  }

  /** The departing token, as far as the acknowledgements go. */
  lemma TokenIs(leader: bool, d: Daemon, t: Token, plan: Plan)
    requires QueueOk(d.queue) && HandleToken(leader, d, t, plan).Go?
    ensures
      var r, sent := HandleToken(leader, d, t, plan).value, TakePackets(d.id, d.queue, plan.count).0;
      && BeforeToken(d.win, t, sent).Go?
      && var w := BeforeToken(d.win, t, sent).value;
         && r.token.num == w.highest && r.sent == sent
         && (r.token.aru, r.token.lastId) == (StampAru(d.id, d.mark, w.myAru, w.highest, t).aru, StampAru(d.id, d.mark, w.myAru, w.highest, t).lastId)
  {
    hide BeforeToken, AfterToken, StampAru, TakePackets, Missing;
  }

  lemma RisingStep(s: Sys, step: Step, l: Limits)
    requires Rising(s, l) && Enabled(s, step, l)
    ensures Rising(Apply(s, step, l), l)
  {
    hide AcceptsArq, HandlePacket, HandleToken, PlanOk;
    match step
    case PassToken(plan, hurried) =>
      if Pristine(s, l) {
        PristineVisit(s, plan, hurried, l);
      } else {
        WriterStays(s, plan, hurried, l);
      }
    case StaleToken(i, k) =>
    case ReceivePacket(a, q) =>
      if Apply(s, step, l).Up? {
        SameIds(s, Apply(s, step, l), l);
      }
    case Submit(a, m) =>
      SameIds(s, Apply(s, step, l), l);
  }

  lemma SameIds(s: Sys, s': Sys, l: Limits)
    requires Rising(s, l) && s.Up? && s'.Up? && s'.token == s.token && |s'.ring| == |s.ring|
    requires forall j :: 0 <= j < |s.ring| ==> s'.ring[j].daemon.id == s.ring[j].daemon.id
    requires Pristine(s, l) ==> Pristine(s', l)
    ensures Rising(s', l)
  {
    if WriterThere(s) {
      var j :| 0 <= j < |s.ring| && s.ring[j].daemon.id == s.token.lastId;
      assert s'.ring[j].daemon.id == s'.token.lastId;
    }
  }

  lemma {:induction false} RisingPath(path: seq<Sys>, s: Sys, t: Sys, l: Limits)
    requires Path(path, s, t, l) && Rising(s, l)
    ensures Rising(t, l)
    decreases |path|
  {
    hide Rising, Enabled, Apply;
    if |path| > 1 {
      var n := |path| - 1;
      RisingPath(path[..n], s, path[n - 1], l);
      assert Next(path[n - 1], path[n], l);
      var step :| Enabled(path[n - 1], step, l) && path[n] == Apply(path[n - 1], step, l);
      RisingStep(path[n - 1], step, l);
    }
  }

  /** The first holder has more packets to send than the token's aru says, and what it leaves is an
      aru below seq that nobody has written. */
  lemma StallRun(s: Sys, l: Limits) returns (t: Sys)
    requires Init(s) && !RisingStart(s, l)
    ensures t.Up? && Reaches(s, t, l) && !CanRise(ToCore(t))
  {
    hide Reaches;
    var d, aru := s.ring[0].daemon, s.token.aru;
    assert FreshMember(s.ring[0]) && 0 < aru < FirstBurst(l);
    var m := Message(Agreed, seq(aru + 1, i => []));
    ReachesSelf(s, l);
    var u := Apply(s, Submit(0, m), l);
    ReachesStep(s, s, Submit(0, m), l);
    Submitted(s, u, m, l);
    var plan := Plan(aru + 1, (if l.window < l.personal then l.window else l.personal) + 1, 0, 0);
    assert CatchUp(u.ring[0].daemon.win, 0) == EMPTY_WINDOW;
    assert PlanOk(u.ring[0].daemon.win, u.token, plan, l);
    WaitingMore(s.ring[0].daemon.queue.messages, m);
    StallVisit(u, plan, l);
    t := Apply(u, PassToken(plan, false), l);
    ReachesStep(s, u, PassToken(plan, false), l);
  }

  lemma Submitted(s: Sys, u: Sys, m: Message, l: Limits)
    requires Init(s) && m.parts != [] && u == Apply(s, Submit(0, m), l)
    ensures Init(u) && u.token == s.token && |u.ring| == |s.ring|
    ensures forall i :: 0 <= i < |s.ring| ==> u.ring[i].daemon.id == s.ring[i].daemon.id
    ensures u.ring[0].daemon.queue.messages == s.ring[0].daemon.queue.messages + [m] && u.ring[0].daemon.queue.cur == 0
  {
    assert FreshMember(s.ring[0]);
    LocalArq(s.ring, s.token.arq, 0, u.ring[0].daemon);
  }

  lemma {:induction false} WaitingMore(ms: seq<Message>, m: Message)
    ensures Waiting(ms + [m]) == Waiting(ms) + |m.parts|
  {
    if ms == [] {
      assert [m][1..] == [];
    } else {
      assert (ms + [m])[1..] == ms[1..] + [m];
      WaitingMore(ms[1..], m);
    }
  }

  lemma StallDaemon(leader: bool, d: Daemon, t: Token, plan: Plan)
    requires d.win == EMPTY_WINDOW && d.mark == -1 && d.prevAru == 0 && QueueOk(d.queue) && d.queue.cur == 0
    requires t.num == 0 && t.rtr == [] && t.lastId != d.id && 0 < t.aru < plan.count <= Waiting(d.queue.messages)
    ensures HandleToken(leader, d, t, plan).Go?
    ensures
      var r := HandleToken(leader, d, t, plan).value;
      r.token.aru == t.aru < r.token.num && r.token.lastId == t.lastId && r.daemon.id == d.id && r.daemon.mark == -1
  {
    var sent := TakePackets(d.id, d.queue, plan.count).0;
    SendsAllItMay(d.id, d.queue, plan.count);
    EmptyWindowInv([]);
    FirstVisitNumbers(d, t, sent);
    hide BeforeToken, W.Inv, TakePackets, Waiting;
    HandleTokenKeeps(leader, d, t, plan, []);
    TokenIs(leader, d, t, plan);
    hide HandleToken;
  }

  lemma StallVisit(s: Sys, plan: Plan, l: Limits)
    requires Init(s) && Enabled(s, PassToken(plan, false), l)
    requires 0 < s.token.aru < plan.count <= Waiting(s.ring[0].daemon.queue.messages) && !WriterThere(s)
    ensures
      var t := Apply(s, PassToken(plan, false), l);
      t.Up? && !CanRise(ToCore(t))
  {
    var m := s.ring[0];
    assert FreshMember(m) && m.daemon.id != s.token.lastId;
    hide HandleToken, PlanOk, Waiting;
    StallDaemon(m.leader, m.daemon, s.token, plan);
    var leader :| ArqAt(s.ring, s.token.arq, leader);
    assert Expected(m) == s.token.arq;
    var t := Apply(s, PassToken(plan, false), l);
    hide ArqAt;
    forall j | 0 <= j < |t.ring|
      ensures !Raises(ToCore(t), j)
    {
      if j < |t.ring| - 1 {
        assert t.ring[j] == s.ring[j + 1] && FreshMember(s.ring[j + 1]);
      }
    }
  }

  /** At every moment of every run the aru can rise again, so that RunsComeToRest applies, if and only
      if the start is a rising one: the first token's aru is 0, or a member of the ring has written
      it, or it is at least what the first holder can send. */
  lemma AruRisesExactly(s: Sys, l: Limits)
    requires Init(s)
    ensures RisingStart(s, l) <==> forall t :: Reaches(s, t, l) && t.Up? ==> CanRise(ToCore(t))
  {
    hide Reaches, CanRise;
    if RisingStart(s, l) {
      StartRises(s, l);
      hide Init, RisingStart, Rising;
      forall t | Reaches(s, t, l) && t.Up?
        ensures CanRise(ToCore(t))
      {
        RisingReaches(s, t, l);
      }
    } else {
      var t := StallRun(s, l);
    }
  }

  lemma StartRises(s: Sys, l: Limits)
    requires Init(s) && RisingStart(s, l)
    ensures Rising(s, l)
  {
    assert forall i :: 0 <= i < |s.ring| ==> FreshMember(s.ring[i]);
  }

  lemma RisingReaches(s: Sys, t: Sys, l: Limits)
    requires Rising(s, l) && Reaches(s, t, l) && t.Up?
    ensures CanRise(ToCore(t))
  {
    hide Rising, CanRise;
    var path :| Path(path, s, t, l);
    RisingPath(path, s, t, l);
    RisingCanRise(t, l);
  }
}

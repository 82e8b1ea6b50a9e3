/** Which first tokens are harmless, exactly. From any other start on three or more daemons there
    is a run in which a daemon takes for stable, and hands up as SAFE, a packet that another
    daemon does not have. */
module RingStart {
  import opened Outcomes
  import opened Protocol
  import opened Ring
  import opened RingTheorems
  import W = WindowInvariant
  import A = AruCore

  // ----- reachability

  ghost predicate Path(path: seq<Sys>, from: Sys, to: Sys, l: Limits) {
    && |path| > 0 && path[0] == from && path[|path| - 1] == to
    && forall i :: 0 <= i < |path| - 1 ==> Next(path[i], path[i + 1], l)
  }

  ghost predicate Reaches(from: Sys, to: Sys, l: Limits) {
    exists path :: Path(path, from, to, l)
  }

  lemma ReachesSelf(s: Sys, l: Limits)
    ensures Reaches(s, s, l)
  {
    assert Path([s], s, s, l);
  }

  lemma ReachesStep(from: Sys, s: Sys, step: Step, l: Limits)
    requires Reaches(from, s, l) && Enabled(s, step, l)
    ensures Reaches(from, Apply(s, step, l), l)
  {
    var path :| Path(path, from, s, l);
    assert Next(s, Apply(s, step, l), l);
    assert Path(path + [Apply(s, step, l)], from, Apply(s, step, l), l);
  }

  /** A member of the ring just installed, `behind` the leader, in front of it or the leader itself. */
  function Installed(id: int, waiting: seq<Message>, leader: bool, behind: bool): Member {
    var arq := if leader || behind then 0 else ARQ_MODULUS - 1;
    Member(Daemon(id, EMPTY_WINDOW, -1, 0, arq, 0, 0, Queue(waiting, 0)), leader, [])
  }

  /** Every ring is a start, whoever leads it, whatever waits to be sent and whatever aru and
      aru_last_id recovery has left on the token. */
  lemma EveryRingStarts(ids: seq<int>, waiting: seq<seq<Message>>, leader: nat, aru: nat, lastId: int) returns (s: Sys)
    requires leader < |ids| == |waiting| && forall i, j :: 0 <= i < j < |ids| ==> ids[i] != ids[j]
    requires forall i, k :: 0 <= i < |waiting| && 0 <= k < |waiting[i]| ==> waiting[i][k].parts != []
    ensures Init(s) && |s.ring| == |ids| && s.token.aru == aru && s.token.lastId == lastId
    ensures forall i :: 0 <= i < |ids| ==>
              && s.ring[i].daemon.id == ids[i] && s.ring[i].daemon.queue == Queue(waiting[i], 0)
              && (s.ring[i].leader <==> i == leader)
  {
    var ring := seq(|ids|, i requires 0 <= i < |ids| => Installed(ids[i], waiting[i], i == leader, i > leader));
    s := Up(ring, Token(0, aru, lastId, 0, 0, []), []);
    assert ArqAt(ring, 0, leader);
    forall i | 0 <= i < |ring|
      ensures FreshMember(ring[i])
    {
      assert forall k :: 0 <= k < |waiting[i]| ==> waiting[i][k].parts != [];
    }
  }

  // ----- a visit in which nothing is retransmitted or requested

  ghost predicate QuietMember(m: Member, h: seq<Packet>) {
    && W.Inv(m.daemon.win, h) && QueueOk(m.daemon.queue)
    && m.daemon.win.aru == 0 && 0 <= m.daemon.prevAru
  }

  /** Nobody knows of anything stable yet. */
  ghost predicate Quiet(s: Sys) {
    && s.Up? && |s.ring| > 0 && ArqOk(s.ring, s.token.arq)
    && s.token.num == |s.history| <= 1 && 0 <= s.token.aru && s.token.rtr == []
    && forall i :: 0 <= i < |s.ring| ==> QuietMember(s.ring[i], s.history)
  }

  function QuietPlan(count: nat): Plan {
    Plan(count, count, 0, 0)
  }

  /** The holder after the visit. */
  ghost predicate Visited(s: Sys, count: nat, s': Sys)
    requires s.Up? && |s.ring| > 0 && QueueOk(s.ring[0].daemon.queue)
  {
    var d := s.ring[0].daemon;
    && s'.Up? && |s'.ring| == |s.ring|
    && (forall i :: 0 <= i < |s.ring| - 1 ==> s'.ring[i] == s.ring[i + 1])
    && s'.history == s.history + TakePackets(d.id, d.queue, count).0
    && ArqOk(s'.ring, s'.token.arq)
    && var e := s'.ring[|s.ring| - 1].daemon;
       VisitOk(s.ring[0].leader, d, s.token, QuietPlan(count), s.history, TokenResult(e, s'.token, TakePackets(d.id, d.queue, count).0))
  }

  lemma QuietVisit(s: Sys, count: nat, l: Limits)
    requires Quiet(s) && count <= 1 && Enabled(s, PassToken(QuietPlan(count), false), l)
    ensures Visited(s, count, Apply(s, PassToken(QuietPlan(count), false), l))
  {
    hide W.Inv, BeforeToken, HandleToken, PlanOk;
    var m := s.ring[0];
    assert QuietMember(m, s.history);
    var d := m.daemon;
    var leader :| ArqAt(s.ring, s.token.arq, leader);
    assert Expected(m) == s.token.arq;
    WindowNonNegative(d.win, s.history);
    HandleTokenKeeps(m.leader, d, s.token, QuietPlan(count), s.history);
    var r := HandleToken(m.leader, d, s.token, QuietPlan(count)).value;
    var s' := Apply(s, PassToken(QuietPlan(count), false), l);
    var e := Member(r.daemon, m.leader, m.seen + [s.token]);
    assert s'.ring == Rotate(s.ring, e);
    RotateArq(s.ring, s.token.arq, e);
  }

  lemma WindowNonNegative(w: Window, h: seq<Packet>)
    requires W.Inv(w, h)
    ensures 0 <= w.myAru
  {
  }

  // ----- the run

  ghost predicate Numbers(m: Member, my: int, mark: int, prev: int) {
    m.daemon.win.myAru == my && m.daemon.mark == mark && m.daemon.prevAru == prev
  }

  ghost predicate DistinctDaemons(ring: seq<Member>) {
    forall i, j :: 0 <= i < j < |ring| ==> ring[i].daemon.id != ring[j].daemon.id
  }

  /** The first holder, h, has passed the token on with nothing on it; h.mark is 0. */
  ghost predicate FirstPassed(s: Sys) {
    && Quiet(s) && s.history == [] && |s.ring| >= 3 && DistinctDaemons(s.ring)
    && s.token.aru == 0 && s.token.flow == 0
    && s.token.lastId == s.ring[|s.ring| - 1].daemon.id
    && Numbers(s.ring[|s.ring| - 1], 0, 0, 0)
    && (forall i :: 0 <= i < |s.ring| - 1 ==> Numbers(s.ring[i], 0, -1, 0))
  }

  /** The second daemon has sent packet 1. h is last but one and may have received it. */
  ghost predicate OneSent(s: Sys, myOfFirst: int) {
    Quiet(s) &&
    var n := |s.ring|;
    && |s.history| == 1 && n >= 3 && DistinctDaemons(s.ring)
    && s.token.aru == 1
    && Numbers(s.ring[n - 1], 1, -1, 1)
    && Numbers(s.ring[n - 2], myOfFirst, 0, 0)
    && (forall i :: 0 <= i < n - 2 ==> Numbers(s.ring[i], 0, -1, 0))
  }

  /** k daemons without packet 1 have seen the token; they have pulled its aru down to 0. */
  ghost predicate Lowered(s: Sys, k: nat) {
    Quiet(s) &&
    var n := |s.ring|;
    && |s.history| == 1 && n >= 3 && 0 < k <= n - 2 && DistinctDaemons(s.ring)
    && s.token.aru == 0 && s.token.lastId == s.ring[n - k].daemon.id
    && (forall i :: n - k <= i < n ==> s.ring[i].daemon.win.myAru == 0)
    && Numbers(s.ring[n - 1 - k], 1, -1, 1)
    && Numbers(s.ring[n - 2 - k], 1, 0, 0)
    && (forall i :: 0 <= i < n - 2 - k ==> Numbers(s.ring[i], 0, -1, 0))
  }

  /** h has raised the token's aru to 1 again. */
  ghost predicate Raised(s: Sys) {
    && Quiet(s) && |s.history| == 1 && |s.ring| >= 3
    && s.token.aru == 1
    && Numbers(s.ring[0], 1, -1, 1)
    && s.ring[1].daemon.win.myAru == 0
  }

  /** The second daemon takes packet 1 for stable; the next one does not have it. */
  ghost predicate Overestimated(s: Sys) {
    && s.Up? && |s.history| == 1 && |s.ring| >= 3
    && W.Inv(s.ring[0].daemon.win, s.history) && s.ring[0].daemon.win.myAru == 0
    && W.Inv(s.ring[|s.ring| - 1].daemon.win, s.history) && s.ring[|s.ring| - 1].daemon.win.aru == 1
  }

  lemma StillQuiet(s: Sys, count: nat, s': Sys)
    requires Quiet(s) && count <= 1 && QueueOk(s.ring[0].daemon.queue) && Visited(s, count, s')
    requires |s'.history| <= 1 && s'.ring[|s.ring| - 1].daemon.win.aru == 0
    ensures Quiet(s')
  {
    hide W.Inv, Missing, TakePackets;
    var d := s.ring[0].daemon;
    var sent := TakePackets(d.id, d.queue, count).0;
    assert QuietMember(s.ring[0], s.history);
    var n := |s.ring|;
    WindowNonNegative(s'.ring[n - 1].daemon.win, s'.history);
    forall i | 0 <= i < n - 1
      ensures QuietMember(s'.ring[i], s'.history)
    {
      assert QuietMember(s.ring[i + 1], s.history);
      W.InvExtends(s.ring[i + 1].daemon.win, s.history, sent);
    }
  }

  lemma VisitDistinct(s: Sys, count: nat, s': Sys)
    requires s.Up? && |s.ring| > 0 && QueueOk(s.ring[0].daemon.queue) && Visited(s, count, s') && DistinctDaemons(s.ring)
    ensures DistinctDaemons(s'.ring)
  {
    hide VisitOk, ArqOk;
    var n := |s.ring|;
    assert s'.ring[n - 1].daemon.id == s.ring[0].daemon.id by { VisitKeepsId(s, count, s'); }
    forall i, j | 0 <= i < j < n
      ensures s'.ring[i].daemon.id != s'.ring[j].daemon.id
    {
      assert s'.ring[i] == s.ring[i + 1];
      if j < n - 1 {
        assert s'.ring[j] == s.ring[j + 1];
      }
    }
  }

  lemma VisitKeepsId(s: Sys, count: nat, s': Sys)
    requires s.Up? && |s.ring| > 0 && QueueOk(s.ring[0].daemon.queue) && Visited(s, count, s')
    ensures s'.ring[|s.ring| - 1].daemon.id == s.ring[0].daemon.id
  {
  }

  /** A visit without sending: My_aru stays as it is. */
  ghost predicate Idle(s: Sys, s': Sys) {
    && s.Up? && s'.Up? && |s.ring| > 0 && |s'.ring| == |s.ring| && s'.history == s.history
    && (forall i :: 0 <= i < |s.ring| - 1 ==> s'.ring[i] == s.ring[i + 1])
    && var d, e := s.ring[0].daemon, s'.ring[|s.ring| - 1].daemon;
       var stamp := StampAru(d.id, d.mark, d.win.myAru, |s.history|, s.token);
       && W.Inv(e.win, s'.history)
       && Numbers(s'.ring[|s.ring| - 1], d.win.myAru, stamp.mark, stamp.aru)
       && e.win.aru == A.Min(stamp.aru, d.prevAru) && e.id == d.id
       && s'.token.aru == stamp.aru && s'.token.lastId == stamp.lastId
       && s'.token.flow == s.token.flow - d.lastRetrans - d.lastSent
  }

  lemma VisitedIdle(s: Sys, s': Sys)
    requires s.Up? && |s.ring| > 0 && QueueOk(s.ring[0].daemon.queue) && Visited(s, 0, s')
    ensures Idle(s, s')
  {
    assert TakePackets(s.ring[0].daemon.id, s.ring[0].daemon.queue, 0).0 == [];
    assert s'.history == s.history;
    hide W.Inv, StampAru, ArqOk;
  }

  lemma IdleVisit(s: Sys, l: Limits) returns (s': Sys)
    requires Quiet(s) && DistinctDaemons(s.ring)
    ensures Enabled(s, PassToken(QuietPlan(0), false), l) && s' == Apply(s, PassToken(QuietPlan(0), false), l)
    ensures Idle(s, s') && DistinctDaemons(s'.ring)
    ensures s'.ring[|s.ring| - 1].daemon.win.aru == 0 ==> Quiet(s')
  {
    assert QuietMember(s.ring[0], s.history);
    s' := Apply(s, PassToken(QuietPlan(0), false), l);
    hide W.Inv, HandleToken, AcceptsArq, Visited, QuietMember, Apply;
    QuietVisit(s, 0, l);
    VisitedIdle(s, s');
    VisitDistinct(s, 0, s');
    if s'.ring[|s.ring| - 1].daemon.win.aru == 0 {
      StillQuiet(s, 0, s');
    }
  }

  // ----- step by step

  lemma StartIsQuiet(s: Sys)
    requires Init(s)
    ensures Quiet(s) && DistinctDaemons(s.ring)
  {
    EmptyWindowInv([]);
  }

  /** The daemon that gets the token first resets it to its own My_aru, 0, and marks 0 although
      that is also the highest sequence number there is. */
  lemma FirstVisit(s: Sys, l: Limits) returns (s': Sys)
    requires Init(s) && |s.ring| >= 3
    requires s.token.aru > 0 && s.token.lastId != s.ring[0].daemon.id
    ensures Enabled(s, PassToken(QuietPlan(0), false), l) && s' == Apply(s, PassToken(QuietPlan(0), false), l)
    ensures FirstPassed(s')
    ensures s'.ring[0] == s.ring[1]
  {
    StartIsQuiet(s);
    assert forall i :: 0 <= i < |s.ring| ==> FreshMember(s.ring[i]);
    s' := IdleVisit(s, l);
  }

  /** The next one sends packet 1, so aru and seq of the token are both 1. */
  lemma SendVisit(s: Sys, l: Limits) returns (s': Sys)
    requires FirstPassed(s) && s.ring[0].daemon.queue.messages != [] && 1 <= l.window && 1 <= l.personal
    ensures Enabled(s, PassToken(QuietPlan(1), false), l) && s' == Apply(s, PassToken(QuietPlan(1), false), l)
    ensures s'.Up? && |s'.ring| >= 3 && OneSent(s', 0)
    ensures s'.history == [NextPacket(s.ring[0].daemon.id, s.ring[0].daemon.queue).0]
  {
    var d := s.ring[0].daemon;
    SendEnabled(s, l);
    hide W.Inv, HandleToken, AcceptsArq, QuietMember, Apply, PlanOk, TakePackets, NextPacket, VisitOk, OneSent;
    s' := Apply(s, PassToken(QuietPlan(1), false), l);
    TakeOne(d.id, d.queue);
    QuietVisit(s, 1, l);
    VisitDistinct(s, 1, s');
    assert s'.history == [NextPacket(d.id, d.queue).0];
    SentAll(s, s');
    StillQuiet(s, 1, s');
    OneSentNow(s, s');
  }

  lemma OneSentNow(s: Sys, s': Sys)
    requires FirstPassed(s) && Quiet(s') && |s'.history| == 1 && |s'.ring| == |s.ring| && DistinctDaemons(s'.ring)
    requires forall i :: 0 <= i < |s.ring| - 1 ==> s'.ring[i] == s.ring[i + 1]
    requires s'.token.aru == 1 && Numbers(s'.ring[|s.ring| - 1], 1, -1, 1)
    ensures OneSent(s', 0)
  {
    hide QuietMember, ArqOk;
    var n := |s.ring|;
    assert s'.ring[n - 2] == s.ring[n - 1];
    forall i | 0 <= i < n - 2
      ensures Numbers(s'.ring[i], 0, -1, 0)
    {
      assert s'.ring[i] == s.ring[i + 1];
    }
  }

  lemma SendEnabled(s: Sys, l: Limits)
    requires FirstPassed(s) && s.ring[0].daemon.queue.messages != [] && 1 <= l.window && 1 <= l.personal
    ensures Enabled(s, PassToken(QuietPlan(1), false), l)
  {
    assert QuietMember(s.ring[0], s.history);
    WindowEmpty(s.ring[0].daemon.win);
  }

  lemma WindowEmpty(w: Window)
    requires W.Inv(w, [])
    ensures w.highest == 0 && w.myAru == 0
  {
  }

  lemma TakeOne(id: int, q: Queue)
    requires QueueOk(q) && q.messages != []
    ensures TakePackets(id, q, 1).0 == [NextPacket(id, q).0]
  {
  }

  /** A daemon that has everything and sends one packet stamps the token with its number. */
  lemma SentAll(s: Sys, s': Sys)
    requires FirstPassed(s) && QueueOk(s.ring[0].daemon.queue) && Visited(s, 1, s') && |s'.history| == 1
    ensures Numbers(s'.ring[|s.ring| - 1], 1, -1, 1) && s'.token.aru == 1
    ensures s'.ring[|s.ring| - 1].daemon.win.aru == 0
  {
    hide W.Inv, TakePackets, ArqOk;
    assert Numbers(s.ring[0], 0, -1, 0);
  }

  lemma ApplyArrival(s: Sys, i: nat, l: Limits)
    requires s.Up? && i < |s.ring| && |s.history| > 0 && HandlePacket(s.ring[i].daemon.win, 1, s.history[0]).Go?
    ensures Enabled(s, ReceivePacket(i, 1), l)
    ensures
      var d := s.ring[i].daemon;
      Apply(s, ReceivePacket(i, 1), l)
      == s.(ring := SetDaemon(s.ring, i, d.(win := HandlePacket(d.win, 1, s.history[0]).value)))
  {
    hide HandlePacket;
  }

  /** Packet 1 reaches the daemon that marked 0. */
  lemma Arrival(s: Sys, l: Limits) returns (s': Sys)
    requires OneSent(s, 0)
    ensures Enabled(s, ReceivePacket(|s.ring| - 2, 1), l) && s' == Apply(s, ReceivePacket(|s.ring| - 2, 1), l)
    ensures OneSent(s', 1) && s'.history == s.history
  {
    var i := |s.ring| - 2;
    var d := s.ring[i].daemon;
    assert QuietMember(s.ring[i], s.history);
    ReceiveFirst(d.win, s.history);
    hide W.Inv, HandlePacket, ArqOk, Advance, Answerable, Apply, Enabled;
    ApplyArrival(s, i, l);
    s' := Apply(s, ReceivePacket(i, 1), l);
    var e := d.(win := HandlePacket(d.win, 1, s.history[0]).value);
    LocalArq(s.ring, s.token.arq, i, e);
    LocalQuiet(s.ring, i, e, s.history);
  }

  lemma LocalQuiet(ring: seq<Member>, i: nat, d: Daemon, h: seq<Packet>)
    requires i < |ring| && forall k :: 0 <= k < |ring| ==> QuietMember(ring[k], h)
    requires QuietMember(ring[i].(daemon := d), h)
    ensures forall k :: 0 <= k < |ring| ==> QuietMember(SetDaemon(ring, i, d)[k], h)
  {
    hide QuietMember;
  }

  lemma ReceiveFirst(w: Window, h: seq<Packet>)
    requires W.Inv(w, h) && |h| == 1 && w.myAru == 0 && w.aru == 0
    ensures HandlePacket(w, 1, h[0]).Go?
    ensures var e := HandlePacket(w, 1, h[0]).value; W.Inv(e, h) && e.myAru == 1 && e.aru == 0
  {
    W.PacketKeepsInv(w, 1, h);
    var e := HandlePacket(w, 1, h[0]).value;
    assert 1 in e.slots;
  }

  /** A daemon without packet 1 pulls the token's aru down, or finds it down already. */
  lemma LowerFirst(s: Sys, l: Limits) returns (s': Sys)
    requires OneSent(s, 1)
    ensures Enabled(s, PassToken(QuietPlan(0), false), l) && s' == Apply(s, PassToken(QuietPlan(0), false), l)
    ensures Lowered(s', 1) && s'.history == s.history && |s'.ring| == |s.ring|
  {
    hide W.Inv, Apply;
    assert Numbers(s.ring[0], 0, -1, 0);
    s' := IdleVisit(s, l);
  }

  lemma LowerNext(s: Sys, k: nat, l: Limits) returns (s': Sys)
    requires Lowered(s, k) && k < |s.ring| - 2
    ensures Enabled(s, PassToken(QuietPlan(0), false), l) && s' == Apply(s, PassToken(QuietPlan(0), false), l)
    ensures Lowered(s', k + 1) && s'.history == s.history && |s'.ring| == |s.ring|
  {
    hide W.Inv, Apply;
    assert Numbers(s.ring[0], 0, -1, 0);
    assert s.ring[0].daemon.id != s.token.lastId;
    s' := IdleVisit(s, l);
  }

  lemma {:induction false} LowerAll(from: Sys, s: Sys, k: nat, l: Limits) returns (s': Sys)
    requires Reaches(from, s, l) && Lowered(s, k)
    ensures s'.Up? && |s'.ring| >= 3 && Reaches(from, s', l) && Lowered(s', |s'.ring| - 2) && s'.history == s.history
    decreases if s.Up? then |s.ring| - k else 0
  {
    hide Reaches, Lowered, Enabled, Apply;
    LoweredRange(s, k);
    if k == |s.ring| - 2 {
      s' := s;
    } else {
      var s1 := LowerNext(s, k, l);
      ReachesStep(from, s, PassToken(QuietPlan(0), false), l);
      s' := LowerAll(from, s1, k + 1, l);
    }
  }

  lemma LoweredRange(s: Sys, k: nat)
    requires Lowered(s, k)
    ensures s.Up? && |s.ring| >= 3 && k <= |s.ring| - 2
  {
  }

  /** The daemon that marked 0 finds its own mark on the token and raises it to 1. */
  lemma RaiseAgain(s: Sys, l: Limits) returns (s': Sys)
    requires s.Up? && |s.ring| >= 3 && Lowered(s, |s.ring| - 2)
    ensures Enabled(s, PassToken(QuietPlan(0), false), l) && s' == Apply(s, PassToken(QuietPlan(0), false), l)
    ensures Raised(s') && DistinctDaemons(s'.ring) && s'.history == s.history
  {
    hide W.Inv, Apply;
    s' := IdleVisit(s, l);
    assert s'.ring[1] == s.ring[2];
  }

  /** So the sender of packet 1 has seen two tokens with aru 1 in a row. */
  lemma Overestimate(s: Sys, l: Limits) returns (s': Sys)
    requires Raised(s) && DistinctDaemons(s.ring)
    ensures Enabled(s, PassToken(QuietPlan(0), false), l) && s' == Apply(s, PassToken(QuietPlan(0), false), l)
    ensures Overestimated(s') && s'.history == s.history
  {
    assert QuietMember(s.ring[1], s.history);
    hide W.Inv, Apply;
    s' := IdleVisit(s, l);
  }

  // ----- the run from a harmful start

  lemma SubmitFirst(s: Sys, l: Limits) returns (s': Sys)
    requires Init(s) && |s.ring| >= 3
    ensures Enabled(s, Submit(1, Message(Safe, [[]])), l) && s' == Apply(s, Submit(1, Message(Safe, [[]])), l)
    ensures Init(s') && |s'.ring| == |s.ring| && s'.token == s.token && s'.ring[0] == s.ring[0]
    ensures s'.ring[1].daemon.queue == s.ring[1].daemon.queue.(messages := s.ring[1].daemon.queue.messages + [Message(Safe, [[]])])
  {
    s' := Apply(s, Submit(1, Message(Safe, [[]])), l);
    assert FreshMember(s.ring[1]);
    LocalArq(s.ring, s.token.arq, 1, s'.ring[1].daemon);
  }

  lemma HarmfulRun(s: Sys, l: Limits) returns (t: Sys)
    requires Init(s) && |s.ring| >= 3 && s.token.aru > 0 && s.token.lastId != s.ring[0].daemon.id
    requires 1 <= l.window && 1 <= l.personal
    ensures Reaches(s, t, l) && Overestimated(t)
    ensures s.ring[1].daemon.queue.messages == [] ==> t.history[0].service.Safe?
  {
    hide Reaches, Apply, Enabled, Init, FirstPassed, OneSent, Lowered, Raised;
    ReachesSelf(s, l);
    var s1 := SubmitFirst(s, l);
    ReachesStep(s, s, Submit(1, Message(Safe, [[]])), l);
    var s2 := FirstVisit(s1, l);
    ReachesStep(s, s1, PassToken(QuietPlan(0), false), l);
    var s3 := SendVisit(s2, l);
    ReachesStep(s, s2, PassToken(QuietPlan(1), false), l);
    var s4 := Arrival(s3, l);
    ReachesStep(s, s3, ReceivePacket(|s3.ring| - 2, 1), l);
    var s5 := LowerFirst(s4, l);
    ReachesStep(s, s4, PassToken(QuietPlan(0), false), l);
    var s6 := LowerAll(s, s5, 1, l);
    var s7 := RaiseAgain(s6, l);
    ReachesStep(s, s6, PassToken(QuietPlan(0), false), l);
    t := Overestimate(s7, l);
    ReachesStep(s, s7, PassToken(QuietPlan(0), false), l);
  }

  lemma OverestimateIsUnstable(s: Sys)
    requires Overestimated(s)
    ensures !Stable(s)
    ensures s.history[0].service.Safe? ==> !SafeMeansEverywhere(s)
  {
    var w, v := s.ring[0].daemon.win, s.ring[|s.ring| - 1].daemon.win;
    assert !Has(w, 1);
    if s.history[0].service.Safe? {
      assert 1 in W.Numbers(v.log);
      W.LogValidMeans(v.log, s.history);
      var i :| 0 <= i < |v.log| && v.log[i].num == 1;
      assert v.log[i] in v.log;
    }
  }

  lemma PathIsRun(path: seq<Sys>, s: Sys, t: Sys, l: Limits)
    requires Init(s) && Path(path, s, t, l)
    ensures Run(path, l)
  {
  }

  lemma HarmlessReaches(s: Sys, t: Sys, l: Limits)
    requires Init(s) && HarmlessStart(s) && LimitsOk(l) && Reaches(s, t, l)
    ensures Stable(t) && SafeMeansEverywhere(t)
  {
    hide Init, Next, HarmlessStart, Stable, SafeMeansEverywhere, Run;
    var path :| Path(path, s, t, l);
    PathIsRun(path, s, t, l);
    RunsAreStable(path, l, |path| - 1);
  }

  // ----- a ring whose windows are closed

  predicate WindowsClosed(l: Limits) {
    l.window < 1 || l.personal < 1
  }

  ghost predicate IdleMember(m: Member) {
    && W.Inv(m.daemon.win, []) && QueueOk(m.daemon.queue)
    && m.daemon.win.aru == 0 && m.daemon.prevAru == 0 && SeenOk(m)
  }

  /** Nothing has been sent. */
  ghost predicate Unused(s: Sys) {
    && s.Up? && |s.ring| > 0 && s.history == [] && ArqOk(s.ring, s.token.arq)
    && s.token.num == 0 && 0 <= s.token.aru && s.token.rtr == []
    && forall i :: 0 <= i < |s.ring| ==> IdleMember(s.ring[i])
  }

  lemma StartIsUnused(s: Sys)
    requires Init(s)
    ensures Unused(s)
  {
    EmptyWindowInv([]);
  }

  lemma ClosedPass(s: Sys, plan: Plan, hurried: bool, l: Limits)
    requires Unused(s) && WindowsClosed(l) && Enabled(s, PassToken(plan, hurried), l)
    ensures Unused(Apply(s, PassToken(plan, hurried), l))
  {
    var m, t := s.ring[0], Copy(s.token, hurried);
    assert IdleMember(m);
    var d := m.daemon;
    assert plan.datagrams == 0 && plan.count == 0;
    assert TakePackets(d.id, d.queue, plan.count) == ([], d.queue);
    WindowEmpty(d.win);
    hide W.Inv, BeforeToken, HandleToken, PlanOk, SeenOk;
    var leader :| ArqAt(s.ring, s.token.arq, leader);
    assert Expected(m) == s.token.arq;
    HandleTokenKeeps(m.leader, d, t, plan, s.history);
    var r := HandleToken(m.leader, d, t, plan).value;
    WindowEmpty(r.daemon.win);
    var e := Member(r.daemon, m.leader, m.seen + [t]);
    RotateArq(s.ring, s.token.arq, e);
    SeenGrows(m, t, r.daemon);
    assert forall i :: 0 <= i < |s.ring| - 1 ==> Rotate(s.ring, e)[i] == s.ring[i + 1];
  }

  lemma ClosedStale(s: Sys, i: nat, k: nat, l: Limits)
    requires Unused(s) && Enabled(s, StaleToken(i, k), l)
    ensures Apply(s, StaleToken(i, k), l) == s
  {
    assert IdleMember(s.ring[i]);
    var leader :| ArqAt(s.ring, s.token.arq, leader);
    assert 0 <= Expected(s.ring[i]) < ARQ_MODULUS;
  }

  lemma ClosedSubmit(s: Sys, i: nat, m: Message, l: Limits)
    requires Unused(s) && Enabled(s, Submit(i, m), l)
    ensures Unused(Apply(s, Submit(i, m), l))
  {
    hide W.Inv;
    assert IdleMember(s.ring[i]);
    var d := s.ring[i].daemon.(queue := s.ring[i].daemon.queue.(messages := s.ring[i].daemon.queue.messages + [m]));
    LocalArq(s.ring, s.token.arq, i, d);
    assert SeenOk(s.ring[i].(daemon := d));
  }

  lemma ClosedNext(s: Sys, s': Sys, l: Limits)
    requires Unused(s) && WindowsClosed(l) && Next(s, s', l)
    ensures Unused(s')
  {
    assert s.history == [];
    var step :| Enabled(s, step, l) && s' == Apply(s, step, l);
    assert !step.ReceivePacket?;
    hide Unused, Apply, Enabled;
    if step.PassToken? {
      ClosedPass(s, step.plan, step.hurried, l);
    } else if step.StaleToken? {
      ClosedStale(s, step.i, step.k, l);
    } else if step.Submit? {
      ClosedSubmit(s, step.i, step.m, l);
    }
  }

  lemma {:induction false} ClosedPath(path: seq<Sys>, s: Sys, t: Sys, l: Limits)
    requires Init(s) && WindowsClosed(l) && Path(path, s, t, l)
    ensures Unused(t)
  {
    hide Next, Unused, Init;
    StartIsUnused(s);
    var k := 0;
    while k < |path| - 1
      invariant 0 <= k < |path| && Unused(path[k])
    {
      ClosedNext(path[k], path[k + 1], l);
      k := k + 1;
    }
  }

  lemma UnusedIsStable(s: Sys)
    requires Unused(s)
    ensures Stable(s) && SafeMeansEverywhere(s)
  {
    forall i, e | 0 <= i < |s.ring| && e in s.ring[i].daemon.win.log
      ensures false
    {
      assert IdleMember(s.ring[i]);
      W.LogValidMeans(s.ring[i].daemon.win.log, []);
    }
  }

  lemma ClosedReaches(s: Sys, t: Sys, l: Limits)
    requires Init(s) && WindowsClosed(l) && Reaches(s, t, l)
    ensures Stable(t) && SafeMeansEverywhere(t)
  {
    hide Init, Next, Unused, Stable, SafeMeansEverywhere;
    var path :| Path(path, s, t, l);
    ClosedPath(path, s, t, l);
    UnusedIsStable(t);
  }

  // ----- the theorems

  /** Stability holds on all runs from a start if and only if the start is harmless (at most two
      daemons, or a token whose aru is not above its seq, or one last written by its receiver) or
      a closed window keeps everybody from sending anything. */
  lemma StableExactlyWhenHarmless(s: Sys, l: Limits)
    requires Init(s) && LimitsOk(l)
    ensures (HarmlessStart(s) || WindowsClosed(l)) <==> forall t :: Reaches(s, t, l) ==> Stable(t)
  {
    hide HarmlessStart, LimitsOk, Stable, SafeMeansEverywhere, Reaches, Overestimated;
    if HarmlessStart(s) || WindowsClosed(l) {
      forall t | Reaches(s, t, l)
        ensures Stable(t)
      {
        HarmlessOrClosed(s, t, l);
      }
    } else {
      var t := UnstableRun(s, l);
    }
  }

  lemma HarmlessOrClosed(s: Sys, t: Sys, l: Limits)
    requires Init(s) && LimitsOk(l) && (HarmlessStart(s) || WindowsClosed(l)) && Reaches(s, t, l)
    ensures Stable(t) && SafeMeansEverywhere(t)
  {
    hide HarmlessStart, LimitsOk, Stable, SafeMeansEverywhere, Reaches;
    if HarmlessStart(s) {
      HarmlessReaches(s, t, l);
    } else {
      ClosedReaches(s, t, l);
    }
  }

  lemma UnstableRun(s: Sys, l: Limits) returns (t: Sys)
    requires Init(s) && !HarmlessStart(s) && !WindowsClosed(l)
    ensures Reaches(s, t, l) && !Stable(t)
    ensures (forall i :: 0 <= i < |s.ring| ==> s.ring[i].daemon.queue.messages == []) ==> !SafeMeansEverywhere(t)
  {
    hide Reaches, Stable, SafeMeansEverywhere;
    t := HarmfulRun(s, l);
    OverestimateIsUnstable(t);
  }

  /** The same for what SAFE delivery promises, when no messages are waiting at the start. */
  lemma SafeExactlyWhenHarmless(s: Sys, l: Limits)
    requires Init(s) && LimitsOk(l)
    requires forall i :: 0 <= i < |s.ring| ==> s.ring[i].daemon.queue.messages == []
    ensures (HarmlessStart(s) || WindowsClosed(l)) <==> forall t :: Reaches(s, t, l) ==> SafeMeansEverywhere(t)
  {
    hide HarmlessStart, LimitsOk, Stable, SafeMeansEverywhere, Reaches, Overestimated;
    if HarmlessStart(s) || WindowsClosed(l) {
      forall t | Reaches(s, t, l)
        ensures SafeMeansEverywhere(t)
      {
        HarmlessOrClosed(s, t, l);
      }
    } else {
      var t := UnstableRun(s, l);
    }
  }
}

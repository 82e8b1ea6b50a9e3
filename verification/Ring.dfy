/** The whole ring outside recovery: any number of daemons, one token, a network that loses,
    delays, duplicates and reorders packets and also redelivers old tokens.

    The members are listed in the order in which the token will reach them, so ring[0] gets the
    token next and goes to the back of the list when it has forwarded it. */
module Ring {
  import opened Outcomes
  import opened Protocol
  import W = WindowInvariant
  import A = AruCore

  /** `seen` holds every token this daemon has processed, oldest first: any of them may be
      delivered to it again. */
  datatype Member = Member(daemon: Daemon, leader: bool, seen: seq<Token>)

  /** history[q - 1] is the packet sent under number q. A daemon that reaches an EXIT alarm, or
      takes an old token for the current one, brings the system `Down`. */
  datatype Sys =
    | Up(ring: seq<Member>, token: Token, history: seq<Packet>)
    | Down(reason: string)

  /** Window and Personal_window of flow_control.c, the same on every daemon. */
  datatype Limits = Limits(window: int, personal: int)

  /** A datagram of 1472 bytes has room for at most 40 packet headers of 36 bytes. */
  const PACKETS_PER_DATAGRAM := 40

  /** The most that may be sent in one visit if the 8192 slots are to suffice. */
  const MAX_BURST := MAX_PACKETS_IN_STRUCT - MAX_SEQ_GAP

  /** Personal_window is at most 163. */
  predicate LimitsOk(l: Limits): (r: bool)
    ensures r <==> l.personal <= 163
  {
    PACKETS_PER_DATAGRAM * (l.personal + 1) <= MAX_BURST
  }

  datatype Step =
    | PassToken(plan: Plan, hurried: bool)
    | StaleToken(i: nat, k: nat)
    | ReceivePacket(i: nat, q: int)
    | Submit(i: nat, m: Message)

  /** Send_new_packets stops after `allowed` datagrams but always flushes what it has queued. */
  predicate PlanOk(w: Window, t: Token, plan: Plan, l: Limits) {
    var allowed := Allowed(CatchUp(w, t.num), t.flow, l.window, l.personal);
    && plan.count <= PACKETS_PER_DATAGRAM * plan.datagrams
    && (if allowed <= 0 then plan.datagrams == 0 else plan.datagrams <= allowed + 1)
  }

  predicate Enabled(s: Sys, step: Step, l: Limits) {
    s.Up? &&
    match step
    case PassToken(plan, _) =>
      |s.ring| > 0 && QueueOk(s.ring[0].daemon.queue) && PlanOk(s.ring[0].daemon.win, s.token, plan, l)
    case StaleToken(i, k) =>
      // at most 14 rotations older than the newest token this daemon has processed
      i < |s.ring| && k < |s.ring[i].seen| <= k + 15
    case ReceivePacket(i, q) =>
      i < |s.ring| && 0 < q <= |s.history|
    case Submit(i, m) =>
      i < |s.ring| && m.parts != []
  }

  /** A token resent because of a hurry message carries no retransmission requests. */
  function Copy(t: Token, hurried: bool): Token {
    if hurried then t.(rtr := []) else t
  }

  function SetDaemon(ring: seq<Member>, i: nat, d: Daemon): (r: seq<Member>)
    requires i < |ring|
    ensures |r| == |ring|
  {
    ring[i := ring[i].(daemon := d)]
  }

  function Apply(s: Sys, step: Step, l: Limits): Sys
    requires Enabled(s, step, l)
  {
    match step
    case PassToken(plan, hurried) =>
      var m, t := s.ring[0], Copy(s.token, hurried);
      if !AcceptsArq(m.leader, m.daemon.prevArq, t.arq) then
        s
      else (
        match HandleToken(m.leader, m.daemon, t, plan)
        case Exit(reason) => Down(reason)
        case Go(r) => Up(s.ring[1..] + [Member(r.daemon, m.leader, m.seen + [t])], r.token, s.history + r.sent))
    case StaleToken(i, k) =>
      var m := s.ring[i];
      if AcceptsArq(m.leader, m.daemon.prevArq, m.seen[k].arq) then Down("old token processed again") else s
    case ReceivePacket(i, q) => (
      match HandlePacket(s.ring[i].daemon.win, q, s.history[q - 1])
      case Exit(reason) => Down(reason)
      case Go(w) => s.(ring := SetDaemon(s.ring, i, s.ring[i].daemon.(win := w))))
    case Submit(i, m) =>
      var d := s.ring[i].daemon;
      s.(ring := SetDaemon(s.ring, i, d.(queue := d.queue.(messages := d.queue.messages + [m]))))
  }

  ghost predicate Next(s: Sys, s': Sys, l: Limits) {
    exists step :: Enabled(s, step, l) && s' == Apply(s, step, l)
  }

  // ----- the start

  const EMPTY_WINDOW := Window(map[], 0, 0, 0, 0, 0, [])

  function Expected(m: Member): int {
    if m.leader then m.daemon.prevArq else (m.daemon.prevArq + 1) % ARQ_MODULUS
  }

  /** The rotation numbers agree: members in front of the leader, and the leader itself, wait for
      the counter that is on the token, the others for the one the leader will put there. */
  ghost predicate ArqAt(ring: seq<Member>, arq: int, leader: int) {
    && 0 <= leader < |ring| && 0 <= arq < ARQ_MODULUS
    && forall i :: 0 <= i < |ring| ==>
         && (ring[i].leader <==> i == leader)
         && 0 <= ring[i].daemon.prevArq < ARQ_MODULUS
         && Expected(ring[i]) == (if i <= leader then arq else (arq + 1) % ARQ_MODULUS)
  }

  ghost predicate ArqOk(ring: seq<Member>, arq: int) {
    exists leader :: ArqAt(ring, arq, leader)
  }

  /** A membership has just been installed. Everything is empty, but the token still carries the
      aru that the recovery phase left on it and the id of whoever wrote that. The buffers are empty
      if and only if no old packet came back during recovery (EvsLeftover.NextRingStartsExactly). */
  ghost predicate Init(s: Sys) {
    && s.Up? && |s.ring| > 0 && s.history == []
    && s.token.num == 0 && 0 <= s.token.aru && s.token.flow == 0 && s.token.rtr == []
    && ArqOk(s.ring, s.token.arq)
    && (forall i :: 0 <= i < |s.ring| ==> FreshMember(s.ring[i]))
    && (forall i, j :: 0 <= i < j < |s.ring| ==> s.ring[i].daemon.id != s.ring[j].daemon.id)
  }

  ghost predicate FreshMember(m: Member) {
    && m.daemon.win == EMPTY_WINDOW && m.daemon.mark == -1 && m.daemon.prevAru == 0
    && m.daemon.lastRetrans == 0 && m.daemon.lastSent == 0
    && QueueOk(m.daemon.queue) && m.daemon.queue.cur == 0 && m.seen == []
  }

  /** What a caller can check before the first rotation. */
  ghost predicate HarmlessStart(s: Sys)
    requires s.Up? && |s.ring| > 0
  {
    |s.ring| <= 2 || s.token.aru <= s.token.num || s.token.lastId == s.ring[0].daemon.id
  }

  ghost predicate Run(trace: seq<Sys>, l: Limits) {
    && |trace| > 0 && Init(trace[0])
    && forall i :: 0 <= i < |trace| - 1 ==> Next(trace[i], trace[i + 1], l)
  }

  /** A run together with the steps that make it. */
  ghost predicate Driven(trace: seq<Sys>, steps: seq<Step>, l: Limits) {
    && |trace| == |steps| + 1 && Init(trace[0])
    && forall i :: 0 <= i < |steps| ==> Enabled(trace[i], steps[i], l) && trace[i + 1] == Apply(trace[i], steps[i], l)
  }

  // ----- the invariant

  function ToCell(d: Daemon): A.Cell {
    A.Cell(d.id, d.win.myAru, d.mark, d.prevAru, d.win.aru)
  }

  function ToCells(ring: seq<Member>): (cells: seq<A.Cell>)
    ensures |cells| == |ring|
    ensures forall i :: 0 <= i < |ring| ==> cells[i] == ToCell(ring[i].daemon)
  {
    seq(|ring|, i requires 0 <= i < |ring| => ToCell(ring[i].daemon))
  }

  function ToCore(s: Sys): A.Core
    requires s.Up?
  {
    A.Core(ToCells(s.ring), s.token.aru, s.token.num, s.token.lastId)
  }

  ghost predicate MemberOk(m: Member, h: seq<Packet>) {
    && W.Inv(m.daemon.win, h)
    && QueueOk(m.daemon.queue)
    && 0 <= m.daemon.lastRetrans && 0 <= m.daemon.lastSent
    && SeenOk(m)
  }

  /** Old tokens carry old counters. */
  ghost predicate SeenOk(m: Member) {
    forall k :: 0 <= k < |m.seen| ==> m.seen[k].arq == (Expected(m) + k - |m.seen|) % ARQ_MODULUS
  }

  function FlowSum(ring: seq<Member>): int {
    if ring == [] then 0
    else ring[0].daemon.lastRetrans + ring[0].daemon.lastSent + FlowSum(ring[1..])
  }

  /** The packets in flight fit the fixed array of slots of every daemon. */
  ghost predicate Fits(s: Sys)
    requires s.Up?
  {
    forall i :: 0 <= i < |s.ring| ==> s.token.num <= s.ring[i].daemon.win.aru + MAX_PACKETS_IN_STRUCT
  }

  /** Nothing at or below anybody's Aru is being asked for, and nothing that has not been sent. */
  ghost predicate RequestsOk(s: Sys)
    requires s.Up?
  {
    forall i, k :: 0 <= i < |s.ring| && 0 <= k < |s.token.rtr| ==>
      s.ring[i].daemon.win.aru < s.token.rtr[k] <= s.token.num
  }

  ghost predicate Inv(s: Sys) {
    && s.Up? && |s.ring| > 0
    && s.token.num == |s.history|
    && A.Inv(ToCore(s))
    && (forall i :: 0 <= i < |s.ring| ==> MemberOk(s.ring[i], s.history))
    && ArqOk(s.ring, s.token.arq)
    && s.token.flow == FlowSum(s.ring)
    && RequestsOk(s)
    && Fits(s)
  }

  lemma EmptyWindowInv(h: seq<Packet>)
    ensures W.Inv(EMPTY_WINDOW, h)
  {
    assert W.OrderedPrefix(h, 0) == [];
  }

  lemma {:induction false} FreshFlow(ring: seq<Member>)
    requires forall i :: 0 <= i < |ring| ==> FreshMember(ring[i])
    ensures FlowSum(ring) == 0
  {
    if ring != [] {
      FreshFlow(ring[1..]);
    }
  }

  lemma InitInv(s: Sys)
    requires Init(s) && HarmlessStart(s)
    ensures Inv(s)
  {
    EmptyWindowInv([]);
    FreshFlow(s.ring);
    var c := ToCore(s);
    assert A.Fresh(c) && A.HarmlessStart(c);
    A.HarmlessStartInv(c);
  }

  // ----- one visit of the token

  /** What a visit does to the daemon and the token, in one place: the buffer invariant holds over
      the longer history, own packets included, and the token carries what AruCore says. */
  ghost predicate VisitOk(leader: bool, d: Daemon, t: Token, plan: Plan, h: seq<Packet>, r: TokenResult)
    requires QueueOk(d.queue)
  {
    var w := r.daemon.win;
    var stamp := StampAru(d.id, d.mark, w.myAru, w.highest, t);
    && W.Inv(w, h + r.sent) && QueueOk(r.daemon.queue)
    && r.token.num == w.highest == |h + r.sent|
    && d.win.myAru <= w.myAru <= w.highest
    && (r.token.aru, r.token.lastId, r.daemon.mark) == (stamp.aru, stamp.lastId, stamp.mark)
    && w.aru == A.Min(stamp.aru, d.prevAru)
    && d.win.lastDelivered <= w.lastDelivered
    && r.daemon.id == d.id && r.daemon.prevAru == r.token.aru && r.daemon.prevArq == r.token.arq
    && r.token.arq == (if leader then (t.arq + 1) % ARQ_MODULUS else t.arq)
    && r.daemon.lastRetrans == plan.retrans && r.daemon.lastSent == plan.datagrams
    && r.token.flow == t.flow - d.lastRetrans - d.lastSent + plan.retrans + plan.datagrams
    && (r.sent, r.daemon.queue) == TakePackets(d.id, d.queue, plan.count)
    && (d.win.myAru == |h| ==> w.myAru == |h + r.sent|)
    && (r.sent == [] ==> w.myAru == d.win.myAru)
    && (forall k :: 0 <= k < |r.token.rtr| ==> w.myAru < r.token.rtr[k] <= r.token.num)
    && (plan.requests == 0 ==> r.token.rtr == [])
  }

  lemma HandleTokenKeeps(leader: bool, d: Daemon, t: Token, plan: Plan, h: seq<Packet>)
    requires W.Inv(d.win, h) && QueueOk(d.queue) && t.num == |h| && Answerable(d.win, t.rtr)
    requires
      var (sent, _) := TakePackets(d.id, d.queue, plan.count);
      BeforeToken(d.win, t, sent).Go? ==>
        var w := BeforeToken(d.win, t, sent).value;
        var aru := StampAru(d.id, d.mark, w.myAru, w.highest, t).aru;
        d.win.myAru <= w.myAru <= w.highest && t.num <= w.highest ==>
          d.win.aru <= A.Min(aru, d.prevAru) <= w.myAru
    ensures HandleToken(leader, d, t, plan).Go?
    ensures VisitOk(leader, d, t, plan, h, HandleToken(leader, d, t, plan).value)
  {
    var (sent, queue) := TakePackets(d.id, d.queue, plan.count);
    assert d.win.lastDiscarded == d.win.aru;
    hide BeforeToken, AfterToken, StampAru, Answerable, TakePackets, Missing, W.Inv;
    W.BeforeTokenKeeps(d.win, t, sent, h);
    var w := BeforeToken(d.win, t, sent).value;
    assert W.Bounds(w, h + sent);
    hide W.Core, W.Bounds, W.Maximal;
    var t1 := NextToken(leader, d, w, t, plan);
    hide VisitOk, HandleToken;
    W.AfterTokenKeeps(w, t1.aru, d.prevAru, plan.datagrams, h + sent);
    VisitAssembled(leader, d, t, plan, h, w, AfterToken(w, t1.aru, d.prevAru, plan.datagrams).value);
  }

  /** w is the buffer when the token leaves, e the buffer after the delivery that follows. */
  lemma VisitAssembled(leader: bool, d: Daemon, t: Token, plan: Plan, h: seq<Packet>, w: Window, e: Window)
    requires QueueOk(d.queue)
    requires
      var sent := TakePackets(d.id, d.queue, plan.count).0;
      var stamp := StampAru(d.id, d.mark, w.myAru, w.highest, t);
      && BeforeToken(d.win, t, sent) == Outcome<Window>.Go(w)
      && AfterToken(w, stamp.aru, d.prevAru, plan.datagrams) == Outcome<Window>.Go(e)
      && W.Inv(e, h + sent) && e.aru == A.Min(stamp.aru, d.prevAru)
      && w.highest == |h + sent| && d.win.myAru <= w.myAru <= w.highest && d.win.lastDelivered <= e.lastDelivered
      && e.highest == w.highest && e.myAru == w.myAru
      && (d.win.myAru == |h| ==> w.myAru == |h + sent|) && (sent == [] ==> w.myAru == d.win.myAru)
    ensures HandleToken(leader, d, t, plan).Go?
    ensures VisitOk(leader, d, t, plan, h, HandleToken(leader, d, t, plan).value)
  {
    hide W.Inv, BeforeToken, AfterToken, StampAru, TakePackets, Missing;
    RequestsAbove(leader, d, w, t, plan);
  }

  lemma RequestsAbove(leader: bool, d: Daemon, w: Window, t: Token, plan: Plan)
    ensures forall k :: 0 <= k < |NextToken(leader, d, w, t, plan).rtr| ==>
              w.myAru < NextToken(leader, d, w, t, plan).rtr[k] <= w.highest
    ensures plan.requests == 0 ==> NextToken(leader, d, w, t, plan).rtr == []
  {
    var rtr := NextToken(leader, d, w, t, plan).rtr;
    var limit := if w.highest < w.myAru + plan.requests then w.highest else w.myAru + plan.requests;
    forall k | 0 <= k < |rtr|
      ensures w.myAru < rtr[k] <= w.highest
    {
      W.MissingExact(w.slots, w.myAru + 1, limit, rtr[k]);
    }
  }

  /** The token update of the daemon is the visit of AruCore. */
  lemma StampIsVisit(s: Sys, t: Token, h: int, m: int)
    requires Inv(s) && s.token.num <= h && s.ring[0].daemon.win.myAru <= m <= h
    requires t.aru == s.token.aru && t.lastId == s.token.lastId && t.num == s.token.num
    ensures
      var c, d := ToCore(s), s.ring[0].daemon;
      var stamp, v := StampAru(d.id, d.mark, m, h, t), A.Visit(ToCore(s), h, m);
      && A.Inv(v)
      && v == A.Core(c.ring[1..] + [A.Cell(d.id, m, stamp.mark, stamp.aru, A.Min(stamp.aru, d.prevAru))],
                     stamp.aru, h, stamp.lastId)
      && d.win.aru <= A.Min(stamp.aru, d.prevAru) <= m
      && (forall j :: 0 <= j < |s.ring| ==> s.ring[j].daemon.win.aru <= A.Min(stamp.aru, d.prevAru))
  {
    hide A.Ordinary, A.Small, A.Fresh, A.Covered, W.Inv;
    var c, v := ToCore(s), A.Visit(ToCore(s), h, m);
    A.VisitKeepsInv(c, h, m);
    assert v.ring[|c.ring| - 1].aru <= v.ring[|c.ring| - 1].my;
    forall j | 0 <= j < |s.ring|
      ensures s.ring[j].daemon.win.aru <= v.ring[|c.ring| - 1].aru
    {
      assert c.ring[j].aru == s.ring[j].daemon.win.aru;
    }
  }

  /** The live token is never swallowed and never makes its holder exit. */
  lemma VisitSucceeds(s: Sys, plan: Plan, hurried: bool)
    requires Inv(s)
    ensures
      var m, t := s.ring[0], Copy(s.token, hurried);
      && AcceptsArq(m.leader, m.daemon.prevArq, t.arq)
      && W.Inv(m.daemon.win, s.history) && QueueOk(m.daemon.queue) && Answerable(m.daemon.win, t.rtr)
  {
    hide A.Ordinary, A.Small, A.Fresh, A.Covered, W.Inv;
    var leader :| ArqAt(s.ring, s.token.arq, leader);
    assert Expected(s.ring[0]) == s.token.arq;
  }

  /** The visit, with every fact the invariant of the ring needs. */
  lemma VisitFacts(s: Sys, plan: Plan, hurried: bool)
    requires Inv(s)
    ensures
      var m, t := s.ring[0], Copy(s.token, hurried);
      && HandleToken(m.leader, m.daemon, t, plan).Go?
      && var r := HandleToken(m.leader, m.daemon, t, plan).value;
         var c := ToCore(s);
         && VisitOk(m.leader, m.daemon, t, plan, s.history, r)
         && A.Visit(c, r.token.num, r.daemon.win.myAru)
            == A.Core(c.ring[1..] + [ToCell(r.daemon)], r.token.aru, r.token.num, r.token.lastId)
         && A.Inv(A.Visit(c, r.token.num, r.daemon.win.myAru))
         && (forall j :: 0 <= j < |s.ring| ==> s.ring[j].daemon.win.aru <= r.daemon.win.aru)
  {
    hide A.Inv, W.Inv, BeforeToken, HandleToken, StampAru, A.Visit, Answerable;
    var m, t := s.ring[0], Copy(s.token, hurried);
    var d := m.daemon;
    VisitSucceeds(s, plan, hurried);
    var (sent, _) := TakePackets(d.id, d.queue, plan.count);
    if BeforeToken(d.win, t, sent).Go? {
      var w := BeforeToken(d.win, t, sent).value;
      if d.win.myAru <= w.myAru <= w.highest && t.num <= w.highest {
        StampIsVisit(s, t, w.highest, w.myAru);
      }
    }
    HandleTokenKeeps(m.leader, d, t, plan, s.history);
    var r := HandleToken(m.leader, d, t, plan).value;
    StampIsVisit(s, t, r.daemon.win.highest, r.daemon.win.myAru);
  }

  // ----- the parts of the invariant after a visit

  function Rotate(ring: seq<Member>, m: Member): seq<Member>
    requires |ring| > 0
  {
    ring[1..] + [m]
  }

  lemma RotateArq(ring: seq<Member>, arq: int, m: Member)
    requires |ring| > 0 && ArqOk(ring, arq) && m.leader == ring[0].leader
    requires m.daemon.prevArq == (if m.leader then (arq + 1) % ARQ_MODULUS else arq)
    ensures ArqOk(Rotate(ring, m), m.daemon.prevArq)
    ensures Expected(ring[0]) == arq && Expected(m) == (arq + 1) % ARQ_MODULUS
  {
    var leader :| ArqAt(ring, arq, leader);
    var r := Rotate(ring, m);
    assert forall i :: 0 <= i < |ring| - 1 ==> r[i] == ring[i + 1];
    assert ArqAt(r, m.daemon.prevArq, if leader == 0 then |ring| - 1 else leader - 1);
  }

  lemma SeenGrows(m: Member, t: Token, d: Daemon)
    requires SeenOk(m) && t.arq == Expected(m) && 0 <= t.arq < ARQ_MODULUS
    requires Expected(Member(d, m.leader, m.seen + [t])) == (t.arq + 1) % ARQ_MODULUS
    ensures SeenOk(Member(d, m.leader, m.seen + [t]))
  {
    var e := Member(d, m.leader, m.seen + [t]);
    forall k | 0 <= k < |e.seen|
      ensures e.seen[k].arq == (Expected(e) + k - |e.seen|) % ARQ_MODULUS
    {
      assert k < |m.seen| ==> e.seen[k] == m.seen[k];
    }
  }

  lemma {:induction false} FlowSumAppend(ring: seq<Member>, m: Member)
    ensures FlowSum(ring + [m]) == FlowSum(ring) + m.daemon.lastRetrans + m.daemon.lastSent
  {
    if ring == [] {
      assert [m][1..] == [];
    } else {
      assert (ring + [m])[1..] == ring[1..] + [m];
      FlowSumAppend(ring[1..], m);
    }
  }

  lemma RotateCells(ring: seq<Member>, m: Member)
    requires |ring| > 0
    ensures ToCells(Rotate(ring, m)) == ToCells(ring)[1..] + [ToCell(m.daemon)]
  {
  }

  /** The window of 8192 slots suffices: flow control looks at the sender's Aru, and no daemon's
      Aru is older than that of the daemon that holds the token. */
  lemma PassFits(s: Sys, plan: Plan, num: int, m: Member, l: Limits)
    requires s.Up? && |s.ring| > 0 && Fits(s) && LimitsOk(l)
    requires W.Bounds(s.ring[0].daemon.win, s.history) && s.token.num == |s.history|
    requires PlanOk(s.ring[0].daemon.win, s.token, plan, l) && num <= s.token.num + plan.count
    requires forall j :: 0 <= j < |s.ring| ==>
               s.ring[0].daemon.win.aru <= s.ring[j].daemon.win.aru <= m.daemon.win.aru
    ensures forall j :: 0 <= j < |s.ring| ==>
               num <= Rotate(s.ring, m)[j].daemon.win.aru + MAX_PACKETS_IN_STRUCT
  {
    var w := s.ring[0].daemon.win;
    if Allowed(CatchUp(w, s.token.num), s.token.flow, l.window, l.personal) > 0 {
      assert num <= w.aru + MAX_SEQ_GAP + PACKETS_PER_DATAGRAM * (l.personal + 1);
    } else {
      assert plan.datagrams == 0 && num <= s.token.num;
    }
  }

  lemma PassKeepsInv(s: Sys, plan: Plan, hurried: bool, l: Limits)
    requires Inv(s) && LimitsOk(l) && Enabled(s, PassToken(plan, hurried), l)
    ensures Inv(Apply(s, PassToken(plan, hurried), l))
  {
    hide A.Inv, W.Inv, W.Core, HandleToken, A.Visit, Answerable, PlanOk, Fits, ArqOk, SeenOk, FlowSum;
    var m, t := s.ring[0], Copy(s.token, hurried);
    VisitSucceeds(s, plan, hurried);
    VisitFacts(s, plan, hurried);
    var r := HandleToken(m.leader, m.daemon, t, plan).value;
    var e := Member(r.daemon, m.leader, m.seen + [t]);
    var s' := Up(Rotate(s.ring, e), r.token, s.history + r.sent);
    assert s' == Apply(s, PassToken(plan, hurried), l);
    RotateCells(s.ring, e);
    assert ToCore(s') == A.Visit(ToCore(s), r.token.num, r.daemon.win.myAru);
    RotateArq(s.ring, s.token.arq, e);
    ArqRange(s);
    SeenGrows(m, t, r.daemon);
    FlowSumAppend(s.ring[1..], e);
    PassFlow(s);
    PassMembers(s, e, r.sent);
    PassFitsHere(s, plan, r.token.num, e, l);
    PassRequests(s', r.daemon.win.myAru);
    FitsIs(s');
  }

  lemma PassRequests(s: Sys, my: int)
    requires s.Up? && |s.ring| > 0 && A.Inv(ToCore(s)) && s.ring[|s.ring| - 1].daemon.win.myAru == my
    requires forall k :: 0 <= k < |s.token.rtr| ==> my < s.token.rtr[k] <= s.token.num
    ensures RequestsOk(s)
  {
    hide A.Ordinary, A.Small, A.Fresh, A.Covered;
    var c := ToCore(s);
    forall i, k | 0 <= i < |s.ring| && 0 <= k < |s.token.rtr|
      ensures s.ring[i].daemon.win.aru < s.token.rtr[k] <= s.token.num
    {
      assert c.ring[i].aru <= c.ring[|s.ring| - 1].my;
    }
  }

  lemma ArqRange(s: Sys)
    requires s.Up? && ArqOk(s.ring, s.token.arq)
    ensures 0 <= s.token.arq < ARQ_MODULUS
  {
  }

  lemma PassFlow(s: Sys)
    requires s.Up? && |s.ring| > 0
    ensures FlowSum(s.ring) == s.ring[0].daemon.lastRetrans + s.ring[0].daemon.lastSent + FlowSum(s.ring[1..])
  {
  }

  lemma FitsIs(s: Sys)
    requires s.Up?
    ensures Fits(s) <==> forall i :: 0 <= i < |s.ring| ==> s.token.num <= s.ring[i].daemon.win.aru + MAX_PACKETS_IN_STRUCT
  {
  }

  lemma PassMembers(s: Sys, e: Member, sent: seq<Packet>)
    requires s.Up? && |s.ring| > 0
    requires forall i :: 0 <= i < |s.ring| ==> MemberOk(s.ring[i], s.history)
    requires MemberOk(e, s.history + sent)
    ensures forall i :: 0 <= i < |s.ring| ==> MemberOk(Rotate(s.ring, e)[i], s.history + sent)
  {
    hide W.Inv, SeenOk;
    forall i | 0 <= i < |s.ring|
      ensures MemberOk(Rotate(s.ring, e)[i], s.history + sent)
    {
      if i < |s.ring| - 1 {
        assert Rotate(s.ring, e)[i] == s.ring[i + 1];
        W.InvExtends(s.ring[i + 1].daemon.win, s.history, sent);
      }
    }
  }

  lemma PassFitsHere(s: Sys, plan: Plan, num: int, e: Member, l: Limits)
    requires Inv(s) && LimitsOk(l)
    requires PlanOk(s.ring[0].daemon.win, s.token, plan, l) && num <= s.token.num + plan.count
    requires forall j :: 0 <= j < |s.ring| ==> s.ring[j].daemon.win.aru <= e.daemon.win.aru
    ensures forall j :: 0 <= j < |s.ring| ==>
               num <= Rotate(s.ring, e)[j].daemon.win.aru + MAX_PACKETS_IN_STRUCT
  {
    hide PlanOk, A.Ordinary, A.Small, A.Fresh, Rotate;
    var c := ToCore(s);
    forall j | 0 <= j < |s.ring|
      ensures s.ring[0].daemon.win.aru <= s.ring[j].daemon.win.aru
    {
      assert c.ring[0].aru <= c.ring[j].aru;
    }
    assert MemberOk(s.ring[0], s.history);
    PassFits(s, plan, num, e, l);
  }

  // ----- the other steps

  lemma {:induction false} FlowSumUpdate(ring: seq<Member>, i: nat, m: Member)
    requires i < |ring|
    requires m.daemon.lastRetrans == ring[i].daemon.lastRetrans && m.daemon.lastSent == ring[i].daemon.lastSent
    ensures FlowSum(ring[i := m]) == FlowSum(ring)
  {
    if i > 0 {
      assert ring[i := m][1..] == ring[1..][i - 1 := m];
      FlowSumUpdate(ring[1..], i - 1, m);
    } else {
      assert ring[i := m][1..] == ring[1..];
    }
  }

  lemma LocalArq(ring: seq<Member>, arq: int, i: nat, d: Daemon)
    requires i < |ring| && ArqOk(ring, arq) && d.prevArq == ring[i].daemon.prevArq
    ensures ArqOk(SetDaemon(ring, i, d), arq)
  {
    var leader :| ArqAt(ring, arq, leader);
    assert ArqAt(SetDaemon(ring, i, d), arq, leader);
  }

  lemma LocalCells(ring: seq<Member>, i: nat, d: Daemon)
    requires i < |ring|
    ensures ToCells(SetDaemon(ring, i, d)) == ToCells(ring)[i := ToCell(d)]
  {
  }

  lemma LocalAcks(s: Sys, i: nat, d: Daemon)
    requires s.Up? && i < |s.ring| && A.Inv(ToCore(s))
    requires d == s.ring[i].daemon.(win := d.win, queue := d.queue)
    requires d.win.aru == s.ring[i].daemon.win.aru && s.ring[i].daemon.win.myAru <= d.win.myAru <= s.token.num
    ensures A.Inv(ToCore(s.(ring := SetDaemon(s.ring, i, d))))
  {
    hide A.Inv;
    LocalCells(s.ring, i, d);
    A.ReceiveKeepsInv(ToCore(s), i, d.win.myAru);
  }

  lemma LocalRest(s: Sys, i: nat, d: Daemon)
    requires s.Up? && i < |s.ring| && RequestsOk(s) && Fits(s)
    requires d.win.aru == s.ring[i].daemon.win.aru
    ensures RequestsOk(s.(ring := SetDaemon(s.ring, i, d)))
    ensures Fits(s.(ring := SetDaemon(s.ring, i, d)))
  {
    var s' := s.(ring := SetDaemon(s.ring, i, d));
    assert forall j :: 0 <= j < |s.ring| ==> s'.ring[j].daemon.win.aru == s.ring[j].daemon.win.aru;
  }

  lemma LocalMembers(s: Sys, i: nat, d: Daemon)
    requires s.Up? && i < |s.ring|
    requires forall j :: 0 <= j < |s.ring| ==> MemberOk(s.ring[j], s.history)
    requires d == s.ring[i].daemon.(win := d.win, queue := d.queue)
    requires W.Inv(d.win, s.history) && QueueOk(d.queue)
    ensures forall j :: 0 <= j < |s.ring| ==> MemberOk(SetDaemon(s.ring, i, d)[j], s.history)
  {
    hide W.Inv;
    assert MemberOk(s.ring[i], s.history);
    assert SeenOk(s.ring[i].(daemon := d));
  }

  /** A step in which one daemon changes nothing but its buffer and its queue. */
  lemma LocalKeepsInv(s: Sys, i: nat, d: Daemon)
    requires Inv(s) && i < |s.ring|
    requires d == s.ring[i].daemon.(win := d.win, queue := d.queue)
    requires W.Inv(d.win, s.history) && QueueOk(d.queue)
    requires d.win.aru == s.ring[i].daemon.win.aru && s.ring[i].daemon.win.myAru <= d.win.myAru
    ensures Inv(s.(ring := SetDaemon(s.ring, i, d)))
  {
    assert d.win.myAru <= |s.history|;
    hide A.Inv, W.Inv, ArqOk, FlowSum, RequestsOk, Fits, ToCore, MemberOk;
    LocalMembers(s, i, d);
    LocalArq(s.ring, s.token.arq, i, d);
    FlowSumUpdate(s.ring, i, s.ring[i].(daemon := d));
    LocalAcks(s, i, d);
    LocalRest(s, i, d);
  }

  lemma ReceiveKeepsInv(s: Sys, i: nat, q: int, l: Limits)
    requires Inv(s) && Enabled(s, ReceivePacket(i, q), l)
    ensures Inv(Apply(s, ReceivePacket(i, q), l))
  {
    hide A.Inv, W.Inv, ArqOk, FlowSum, HandlePacket;
    var d := s.ring[i].daemon;
    assert MemberOk(s.ring[i], s.history);
    W.PacketKeepsInv(d.win, q, s.history);
    LocalKeepsInv(s, i, d.(win := HandlePacket(d.win, q, s.history[q - 1]).value));
  }

  lemma SubmitKeepsInv(s: Sys, i: nat, m: Message, l: Limits)
    requires Inv(s) && Enabled(s, Submit(i, m), l)
    ensures Inv(Apply(s, Submit(i, m), l))
  {
    hide A.Inv, W.Inv, ArqOk, FlowSum;
    var d := s.ring[i].daemon;
    assert MemberOk(s.ring[i], s.history);
    LocalKeepsInv(s, i, d.(queue := d.queue.(messages := d.queue.messages + [m])));
  }

  /** A token that is up to 14 rotations old is recognised as old by its four-bit counter. */
  lemma StaleRejected(s: Sys, i: nat, k: nat)
    requires Inv(s) && i < |s.ring| && k < |s.ring[i].seen| <= k + 15
    ensures !AcceptsArq(s.ring[i].leader, s.ring[i].daemon.prevArq, s.ring[i].seen[k].arq)
  {
    assert MemberOk(s.ring[i], s.history);
    var leader :| ArqAt(s.ring, s.token.arq, leader);
    assert 0 <= Expected(s.ring[i]) < ARQ_MODULUS;
  }

  lemma NextKeepsInv(s: Sys, s': Sys, l: Limits)
    requires Inv(s) && LimitsOk(l) && Next(s, s', l)
    ensures Inv(s')
  {
    hide Inv, Apply, Enabled;
    var step :| Enabled(s, step, l) && s' == Apply(s, step, l);
    match step
    case PassToken(plan, hurried) =>
      PassKeepsInv(s, plan, hurried, l);
    case StaleToken(i, k) =>
      StaleIsIgnored(s, i, k, l);
    case ReceivePacket(i, q) =>
      ReceiveKeepsInv(s, i, q, l);
    case Submit(i, m) =>
      SubmitKeepsInv(s, i, m, l);
  }

  lemma StaleIsIgnored(s: Sys, i: nat, k: nat, l: Limits)
    requires Inv(s) && Enabled(s, StaleToken(i, k), l)
    ensures Apply(s, StaleToken(i, k), l) == s
  {
    StaleRejected(s, i, k);
  }

  lemma {:induction false} RunKeepsInv(trace: seq<Sys>, l: Limits, i: nat)
    requires Run(trace, l) && LimitsOk(l) && HarmlessStart(trace[0]) && i < |trace|
    ensures Inv(trace[i])
  {
    if i == 0 {
      InitInv(trace[0]);
    } else {
      RunKeepsInv(trace, l, i - 1);
      NextKeepsInv(trace[i - 1], trace[i], l);
    }
  }
}

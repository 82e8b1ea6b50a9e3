/** What the ring promises on every run, and exactly which starts keep the promise. */
module RingTheorems {
  import opened Protocol
  import opened Ring
  import W = WindowInvariant
  import A = AruCore

  // ----- stability and SAFE delivery

  /** The daemon has the packet in its buffer or has already handed it up. */
  ghost predicate Has(w: Window, q: int) {
    q in w.slots || q in W.Numbers(w.log)
  }

  /** No daemon takes for stable what some daemon of the ring has not received. */
  ghost predicate Stable(s: Sys) {
    s.Up? &&
    forall i, j, q :: 0 <= i < |s.ring| && 0 <= j < |s.ring| && 0 < q <= s.ring[i].daemon.win.aru ==>
      Has(s.ring[j].daemon.win, q)
  }

  /** A SAFE packet that anybody has handed up is held by everybody. */
  ghost predicate SafeMeansEverywhere(s: Sys) {
    s.Up? &&
    forall i, j, e :: 0 <= i < |s.ring| && 0 <= j < |s.ring| && e in s.ring[i].daemon.win.log ==>
      e.packet.service.Safe? ==> Has(s.ring[j].daemon.win, e.num)
  }

  lemma UpToMyAru(w: Window, h: seq<Packet>, q: int)
    requires W.Inv(w, h) && 0 < q
    ensures q <= w.myAru ==> Has(w, q)
    ensures Has(w, q) && q == w.myAru + 1 ==> q <= w.lastDiscarded
  {
  }

  lemma InvStable(s: Sys)
    requires Inv(s)
    ensures Stable(s)
    ensures forall i, j :: 0 <= i < |s.ring| && 0 <= j < |s.ring| ==>
              s.ring[i].daemon.win.aru <= s.ring[j].daemon.win.myAru
  {
    hide A.Ordinary, A.Small, A.Fresh, A.Covered, ArqOk, W.Inv, Fits, RequestsOk, FlowSum;
    var c := ToCore(s);
    forall i, j | 0 <= i < |s.ring| && 0 <= j < |s.ring|
      ensures s.ring[i].daemon.win.aru <= s.ring[j].daemon.win.myAru
    {
      assert c.ring[i].aru <= c.ring[j].my;
    }
    forall i, j, q | 0 <= i < |s.ring| && 0 <= j < |s.ring| && 0 < q <= s.ring[i].daemon.win.aru
      ensures Has(s.ring[j].daemon.win, q)
    {
      assert MemberOk(s.ring[j], s.history);
      UpToMyAru(s.ring[j].daemon.win, s.history, q);
    }
  }

  lemma SafeIsStable(w: Window, h: seq<Packet>, e: Delivery)
    requires W.Inv(w, h) && e in w.log && e.packet.service.Safe?
    ensures 0 < e.num <= w.aru
  {
    W.LogValidMeans(w.log, h);
    assert e.num in W.Numbers(w.log);
  }

  lemma InvSafe(s: Sys)
    requires Inv(s)
    ensures SafeMeansEverywhere(s)
  {
    InvStable(s);
    hide W.Inv, A.Inv, ArqOk, Fits, RequestsOk, FlowSum, Has;
    forall i, j, e | 0 <= i < |s.ring| && 0 <= j < |s.ring| && e in s.ring[i].daemon.win.log &&
      e.packet.service.Safe?
      ensures Has(s.ring[j].daemon.win, e.num)
    {
      assert MemberOk(s.ring[i], s.history);
      SafeIsStable(s.ring[i].daemon.win, s.history, e);
    }
  }

  /** On every run from a harmless start nothing exits, no old token is taken for the current
      one, stability is never overestimated and SAFE delivery means what it says. */
  lemma RunsAreStable(trace: seq<Sys>, l: Limits, i: nat)
    requires Run(trace, l) && LimitsOk(l) && HarmlessStart(trace[0]) && i < |trace|
    ensures trace[i].Up?
    ensures Stable(trace[i]) && SafeMeansEverywhere(trace[i])
  {
    RunKeepsInv(trace, l, i);
    InvStable(trace[i]);
    InvSafe(trace[i]);
  }

  // ----- total order

  ghost predicate PrefixComparable<T>(a: seq<T>, b: seq<T>) {
    a <= b || b <= a
  }

  /** The numbers of the ordered deliveries strictly increase. */
  lemma {:induction false} OrderedPrefixIncreases(h: seq<Packet>, n: nat)
    requires n <= |h|
    ensures forall i :: 0 <= i < |W.OrderedPrefix(h, n)| ==> 0 < W.OrderedPrefix(h, n)[i].num <= n
    ensures forall i, j :: 0 <= i < j < |W.OrderedPrefix(h, n)| ==>
              W.OrderedPrefix(h, n)[i].num < W.OrderedPrefix(h, n)[j].num
  {
    if n > 0 {
      OrderedPrefixIncreases(h, n - 1);
    }
  }

  /** One daemon's deliveries: ordered ones in increasing order, every packet at most once, and
      only what was sent. */
  ghost predicate OrderlyLog(log: seq<Delivery>, h: seq<Packet>) {
    && (forall j, k :: 0 <= j < k < |W.Ordered(log)| ==> W.Ordered(log)[j].num < W.Ordered(log)[k].num)
    && (forall j, k :: 0 <= j < k < |log| ==> log[j].num != log[k].num)
    && (forall j :: 0 <= j < |log| ==> 0 < log[j].num <= |h| && log[j].packet == h[log[j].num - 1])
  }

  lemma WindowOrderly(w: Window, h: seq<Packet>)
    requires W.Inv(w, h)
    ensures OrderlyLog(w.log, h)
    ensures 0 <= w.lastDelivered <= |h| && W.Ordered(w.log) == W.OrderedPrefix(h, w.lastDelivered)
  {
    assert W.LogOk(w, h);
    hide W.Inv, W.LogOk;
    W.LogValidMeans(w.log, h);
    OrderedPrefixIncreases(h, w.lastDelivered);
  }

  lemma WindowsComparable(w: Window, w': Window, h: seq<Packet>)
    requires W.Inv(w, h) && W.Inv(w', h)
    ensures PrefixComparable(W.Ordered(w.log), W.Ordered(w'.log))
  {
    hide W.Inv;
    WindowOrderly(w, h);
    WindowOrderly(w', h);
    if w.lastDelivered <= w'.lastDelivered {
      W.OrderedPrefixMonotone(h, w.lastDelivered, w'.lastDelivered);
    } else {
      W.OrderedPrefixMonotone(h, w'.lastDelivered, w.lastDelivered);
    }
  }

  /** Any two daemons deliver prefixes of one sequence of packets, in increasing order of number;
      every packet is handed up at most once, and only if it was sent. Single-packet RELIABLE
      messages, which are delivered early, are not part of the sequence. */
  lemma TotalOrder(trace: seq<Sys>, l: Limits, i: nat, a: nat, b: nat)
    requires Run(trace, l) && LimitsOk(l) && HarmlessStart(trace[0]) && i < |trace|
    requires trace[i].Up? && a < |trace[i].ring| && b < |trace[i].ring|
    ensures PrefixComparable(W.Ordered(trace[i].ring[a].daemon.win.log), W.Ordered(trace[i].ring[b].daemon.win.log))
    ensures OrderlyLog(trace[i].ring[a].daemon.win.log, trace[i].history)
  {
    RunKeepsInv(trace, l, i);
    var s := trace[i];
    hide W.Inv, A.Inv, ArqOk, Fits, RequestsOk, FlowSum, OrderlyLog, PrefixComparable, Run, SeenOk;
    assert MemberOk(s.ring[a], s.history) && MemberOk(s.ring[b], s.history);
    WindowOrderly(s.ring[a].daemon.win, s.history);
    WindowsComparable(s.ring[a].daemon.win, s.ring[b].daemon.win, s.history);
  }

  /** Delivery does not lag: a daemon has handed up every ordered packet it can, that is all up
      to My_aru or up to the first SAFE packet that is not yet stable. */
  lemma DeliveryIsPrompt(trace: seq<Sys>, l: Limits, i: nat, a: nat)
    requires Run(trace, l) && LimitsOk(l) && HarmlessStart(trace[0]) && i < |trace|
    requires trace[i].Up? && a < |trace[i].ring|
    ensures
      var s, w := trace[i], trace[i].ring[a].daemon.win;
      && 0 <= w.aru <= w.lastDelivered <= w.myAru <= |s.history|
      && W.Ordered(w.log) == W.OrderedPrefix(s.history, w.lastDelivered)
      && (w.lastDelivered < w.myAru ==> s.history[w.lastDelivered].service.Safe? && w.lastDelivered + 1 > w.aru)
      && (w.myAru < |s.history| ==> !Has(w, w.myAru + 1))
  {
    RunKeepsInv(trace, l, i);
    var s := trace[i];
    hide A.Inv, ArqOk, Fits, RequestsOk, FlowSum;
    assert MemberOk(s.ring[a], s.history);
  }

  // ----- nothing goes back

  /** The same daemon, later: Aru, My_aru and the ordered deliveries have only grown. */
  ghost predicate Progress(d: Daemon, d': Daemon) {
    && d.id == d'.id
    && d.win.aru <= d'.win.aru
    && d.win.myAru <= d'.win.myAru
    && d.win.lastDelivered <= d'.win.lastDelivered
  }

  /** Every daemon of s is still in s' and has not gone back. */
  ghost predicate Forward(s: Sys, s': Sys) {
    && s.Up? && s'.Up?
    && |s'.ring| == |s.ring| && s.history <= s'.history
    && forall i :: 0 <= i < |s.ring| ==> StillThere(s.ring[i].daemon, s'.ring)
  }

  ghost predicate StillThere(d: Daemon, ring: seq<Member>) {
    exists j :: 0 <= j < |ring| && Progress(d, ring[j].daemon)
  }

  lemma PassForward(s: Sys, plan: Plan, hurried: bool, l: Limits)
    requires Inv(s) && LimitsOk(l) && Enabled(s, PassToken(plan, hurried), l)
    ensures Forward(s, Apply(s, PassToken(plan, hurried), l))
  {
    hide A.Inv, W.Inv, HandleToken, A.Visit, PlanOk, ArqOk, Fits, RequestsOk, FlowSum, SeenOk;
    VisitFacts(s, plan, hurried);
    VisitSucceeds(s, plan, hurried);
    var s' := Apply(s, PassToken(plan, hurried), l);
    var n := |s.ring|;
    forall i | 0 <= i < n
      ensures StillThere(s.ring[i].daemon, s'.ring)
    {
      if i == 0 {
        assert Progress(s.ring[0].daemon, s'.ring[n - 1].daemon);
      } else {
        assert s'.ring[i - 1] == s.ring[i];
        assert Progress(s.ring[i].daemon, s'.ring[i - 1].daemon);
      }
    }
  }

  lemma LocalForward(s: Sys, i: nat, d: Daemon)
    requires s.Up? && i < |s.ring| && Progress(s.ring[i].daemon, d)
    ensures Forward(s, s.(ring := SetDaemon(s.ring, i, d)))
  {
    var s' := s.(ring := SetDaemon(s.ring, i, d));
    forall j | 0 <= j < |s.ring|
      ensures StillThere(s.ring[j].daemon, s'.ring)
    {
      assert Progress(s.ring[j].daemon, s'.ring[j].daemon);
    }
  }

  lemma SameForward(s: Sys)
    requires s.Up?
    ensures Forward(s, s)
  {
    forall j | 0 <= j < |s.ring|
      ensures StillThere(s.ring[j].daemon, s.ring)
    {
      assert Progress(s.ring[j].daemon, s.ring[j].daemon);
    }
  }

  lemma StepForward(s: Sys, s': Sys, l: Limits)
    requires Inv(s) && LimitsOk(l) && Next(s, s', l)
    ensures Forward(s, s')
  {
    hide A.Inv, W.Inv, W.Grown, ArqOk, FlowSum, HandlePacket, Fits, RequestsOk, SeenOk, Forward, AcceptsArq, HandleToken;
    var step :| Enabled(s, step, l) && s' == Apply(s, step, l);
    match step
    case PassToken(plan, hurried) =>
      PassForward(s, plan, hurried, l);
    case StaleToken(i, k) =>
      StaleIsIgnored(s, i, k, l);
      SameForward(s);
    case ReceivePacket(i, q) =>
      ReceiveForward(s, i, q, l);
    case Submit(i, m) =>
      var d := s.ring[i].daemon;
      LocalForward(s, i, d.(queue := d.queue.(messages := d.queue.messages + [m])));
  }

  lemma ReceiveForward(s: Sys, i: nat, q: int, l: Limits)
    requires Inv(s) && Enabled(s, ReceivePacket(i, q), l)
    ensures Forward(s, Apply(s, ReceivePacket(i, q), l))
  {
    hide A.Inv, W.Inv, ArqOk, FlowSum, HandlePacket, Fits, RequestsOk, SeenOk, Forward;
    var d := s.ring[i].daemon;
    assert MemberOk(s.ring[i], s.history);
    W.PacketKeepsInv(d.win, q, s.history);
    LocalForward(s, i, d.(win := HandlePacket(d.win, q, s.history[q - 1]).value));
  }

  lemma ForwardTrans(s: Sys, s1: Sys, s2: Sys)
    requires Forward(s, s1) && Forward(s1, s2)
    ensures Forward(s, s2)
  {
    forall i | 0 <= i < |s.ring|
      ensures StillThere(s.ring[i].daemon, s2.ring)
    {
      assert StillThere(s.ring[i].daemon, s1.ring);
      var k :| 0 <= k < |s1.ring| && Progress(s.ring[i].daemon, s1.ring[k].daemon);
      assert StillThere(s1.ring[k].daemon, s2.ring);
      var j :| 0 <= j < |s2.ring| && Progress(s1.ring[k].daemon, s2.ring[j].daemon);
      assert Progress(s.ring[i].daemon, s2.ring[j].daemon);
    }
  }

  /** Aru never decreases, on any daemon, between any two points of a run. */
  lemma {:induction false} RunsGoForward(trace: seq<Sys>, l: Limits, i: nat, j: nat)
    requires Run(trace, l) && LimitsOk(l) && HarmlessStart(trace[0]) && i <= j < |trace|
    ensures Forward(trace[i], trace[j])
    decreases j
  {
    hide Inv, Forward, Next, HarmlessStart;
    if i < j {
      RunsGoForward(trace, l, i, j - 1);
      RunKeepsInv(trace, l, j - 1);
      StepForward(trace[j - 1], trace[j], l);
      ForwardTrans(trace[i], trace[j - 1], trace[j]);
    } else {
      RunIsUp(trace, l, i);
      SameForward(trace[i]);
    }
  }

  lemma RunIsUp(trace: seq<Sys>, l: Limits, i: nat)
    requires Run(trace, l) && LimitsOk(l) && HarmlessStart(trace[0]) && i < |trace|
    ensures trace[i].Up?
  {
    RunKeepsInv(trace, l, i);
  }

  // ----- the fixed array of slots

  /** Every packet a daemon still has use for falls into the 8192 numbers above what it has
      discarded, so no two of them share an entry of Packets[]. */
  lemma SlotsDoNotCollide(trace: seq<Sys>, l: Limits, i: nat, a: nat)
    requires Run(trace, l) && LimitsOk(l) && HarmlessStart(trace[0]) && i < |trace|
    requires trace[i].Up? && a < |trace[i].ring|
    ensures
      var w := trace[i].ring[a].daemon.win;
      && w.lastDiscarded == w.aru
      && |trace[i].history| <= w.lastDiscarded + MAX_PACKETS_IN_STRUCT
      && (forall q :: q in w.slots ==> w.lastDiscarded < q <= |trace[i].history|)
      && (forall q, r :: q in w.slots && w.aru < r <= |trace[i].history| && EntryOf(q) == EntryOf(r) ==> q == r)
  {
    RunKeepsInv(trace, l, i);
    hide A.Inv, ArqOk, RequestsOk, FlowSum, W.LogOk;
    var s := trace[i];
    assert MemberOk(s.ring[a], s.history);
    assert s.token.num <= s.ring[a].daemon.win.aru + MAX_PACKETS_IN_STRUCT;
  }

  // ----- flow control

  lemma FlowIsConserved(trace: seq<Sys>, l: Limits, i: nat)
    requires Run(trace, l) && LimitsOk(l) && HarmlessStart(trace[0]) && i < |trace|
    ensures trace[i].Up? && trace[i].token.flow == FlowSum(trace[i].ring)
  {
    hide A.Inv, ArqOk, RequestsOk;
    RunKeepsInv(trace, l, i);
  }

  /** A step in which nothing is retransmitted. */
  ghost predicate PlainNext(s: Sys, s': Sys, l: Limits) {
    exists step :: Enabled(s, step, l) && s' == Apply(s, step, l) &&
      (step.PassToken? ==> step.plan.retrans == 0)
  }

  lemma FlowStep(s: Sys, s': Sys, l: Limits)
    requires Inv(s) && PlainNext(s, s', l) && s'.Up?
    requires s.token.flow <= l.window + l.personal + 1
    ensures s'.token.flow <= l.window + l.personal + 1
  {
    hide A.Inv, W.Inv, HandleToken, A.Visit, ArqOk, Fits, RequestsOk, FlowSum, SeenOk, HandlePacket, AcceptsArq;
    var step :| Enabled(s, step, l) && s' == Apply(s, step, l) && (step.PassToken? ==> step.plan.retrans == 0);
    if step.PassToken? {
      VisitFacts(s, step.plan, step.hurried);
      VisitSucceeds(s, step.plan, step.hurried);
      assert MemberOk(s.ring[0], s.history);
    }
  }

  /** Without retransmissions the ring never has more than Window + Personal_window + 1
      datagrams per rotation in flight. */
  lemma {:induction false} FlowIsBounded(trace: seq<Sys>, l: Limits, i: nat)
    requires Run(trace, l) && LimitsOk(l) && HarmlessStart(trace[0]) && i < |trace|
    requires 0 <= l.window + l.personal
    requires forall j :: 0 <= j < |trace| - 1 ==> PlainNext(trace[j], trace[j + 1], l)
    ensures trace[i].Up? && trace[i].token.flow <= l.window + l.personal + 1
  {
    hide Inv, PlainNext, Next, HarmlessStart;
    RunIsUp(trace, l, i);
    if i > 0 {
      FlowIsBounded(trace, l, i - 1);
      RunKeepsInv(trace, l, i - 1);
      FlowStep(trace[i - 1], trace[i], l);
    }
  }

  // ----- each token once

  /** The four-bit counter and the leader's rule together: the daemon that holds the token always
      takes it, and no daemon takes a token it has processed before, up to 14 rotations back. */
  lemma EachTokenOnce(trace: seq<Sys>, l: Limits, i: nat, a: nat, k: nat)
    requires Run(trace, l) && LimitsOk(l) && HarmlessStart(trace[0]) && i < |trace|
    requires trace[i].Up? && a < |trace[i].ring| && k < |trace[i].ring[a].seen| <= k + 15
    ensures
      var s, m := trace[i], trace[i].ring[a];
      && AcceptsArq(s.ring[0].leader, s.ring[0].daemon.prevArq, s.token.arq)
      && !AcceptsArq(m.leader, m.daemon.prevArq, m.seen[k].arq)
  {
    RunKeepsInv(trace, l, i);
    VisitSucceeds(trace[i], Plan(0, 0, 0, 0), false);
    StaleRejected(trace[i], a, k);
  }
}

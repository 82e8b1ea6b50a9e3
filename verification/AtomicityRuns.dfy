/** Message atomicity over whole runs: what the clients of a daemon hand in, what is on its queue,
    what is in the ring's packets and what every other daemon hands up always add up. */
module AtomicityRuns {
  import opened Outcomes
  import opened Protocol
  import opened Ring
  import opened Atomicity
  import W = WindowInvariant
  import T = RingTheorems
  import E = EvsTheorems

  // ----- the sender

  /** The parts of the first message that have been sent already. */
  function InFlight(q: Queue): seq<Bytes>
    requires QueueOk(q)
  {
    if q.messages == [] then [] else q.messages[0].parts[..q.cur]
  }

  /** What the ring has of this sender ends exactly where its queue goes on. */
  ghost predicate Supplied(d: Daemon, h: seq<Packet>) {
    && QueueOk(d.queue) && Assemble(Own(h, d.id)).Go?
    && Assemble(Own(h, d.id)).value.part == InFlight(d.queue)
  }

  /** Everything handed in here: what has been sent whole, and what is waiting. */
  function Submitted(d: Daemon, h: seq<Packet>): seq<Message>
    requires Assemble(Own(h, d.id)).Go?
  {
    Assemble(Own(h, d.id)).value.done + d.queue.messages
  }

  lemma NextSupplies(t: Track, id: int, q: Queue)
    requires QueueOk(q) && q.messages != [] && t.part == InFlight(q)
    ensures
      var (p, q1) := NextPacket(id, q);
      && p.sender == id && Extend(t, p).Go?
      && Extend(t, p).value.part == InFlight(q1)
      && Extend(t, p).value.done + q1.messages == t.done + q.messages
  {
    var m := q.messages[0];
    assert m.parts[..q.cur] + [m.parts[q.cur]] == m.parts[..q.cur + 1];
    if q.cur + 1 == |m.parts| {
      assert m.parts[..q.cur + 1] == m.parts;
    }
  }

  ghost predicate AllFrom(ps: seq<Packet>, id: int) {
    forall i :: 0 <= i < |ps| ==> ps[i].sender == id
  }

  /** Sending moves messages from the queue to the ring, and nothing else. */
  lemma {:induction false} TakeSupplies(id: int, q: Queue, count: nat, h: seq<Packet>)
    requires QueueOk(q) && Assemble(Own(h, id)).Go? && Assemble(Own(h, id)).value.part == InFlight(q)
    ensures
      var (ps, q1) := TakePackets(id, q, count);
      && AllFrom(ps, id)
      && Assemble(Own(h + ps, id)).Go?
      && Assemble(Own(h + ps, id)).value.part == InFlight(q1)
      && Assemble(Own(h + ps, id)).value.done + q1.messages == Assemble(Own(h, id)).value.done + q.messages
    decreases count
  {
    hide Assemble, Own, Extend;
    if count == 0 || q.messages == [] {
      assert h + [] == h;
    } else {
      var t := Assemble(Own(h, id)).value;
      var (p, q1) := NextPacket(id, q);
      NextSupplies(t, id, q);
      OwnAppend(h, p, id);
      AssembleAppend(Own(h, id), p);
      hide NextPacket, QueueOk, InFlight;
      TakeSupplies(id, q1, count - 1, h + [p]);
      var ps := TakePackets(id, q1, count - 1).0;
      assert h + [p] + ps == h + ([p] + ps);
    }
  }

  /** Somebody else's packets do not concern a sender. */
  lemma {:induction false} OthersPackets(h: seq<Packet>, ps: seq<Packet>, sender: int, id: int)
    requires AllFrom(ps, sender) && sender != id
    ensures Own(h + ps, id) == Own(h, id)
    decreases |ps|
  {
    if ps == [] {
      assert h + ps == h;
    } else {
      var n := |ps| - 1;
      OthersPackets(h, ps[..n], sender, id);
      assert h + ps == (h + ps[..n]) + [ps[n]];
      OwnAppend(h + ps[..n], ps[n], id);
    }
  }

  // ----- a sender keeps its own packets

  ghost predicate Retains(w: Window, e: Window) {
    && w.highest <= e.highest && w.lastDiscarded <= e.lastDiscarded
    && forall q :: q in w.slots ==> q in e.slots || q <= e.lastDiscarded
  }

  lemma RetainsTrans(w: Window, e: Window, f: Window)
    requires Retains(w, e) && Retains(e, f)
    ensures Retains(w, f)
  {
  }

  lemma {:induction false} DiscardRetains(w: Window)
    requires Discard(w).Go?
    ensures Retains(w, Discard(w).value)
    decreases w.aru - w.lastDiscarded
  {
    if w.lastDiscarded < w.aru {
      assert Retains(w, DiscardOne(w));
      DiscardRetains(DiscardOne(w));
      RetainsTrans(w, DiscardOne(w), Discard(w).value);
    }
  }

  lemma {:induction false} AgreedRetains(w: Window)
    requires DeliverAgreed(w).Go?
    ensures Retains(w, DeliverAgreed(w).value)
    decreases w.myAru - w.lastDelivered
  {
    if w.lastDelivered < w.myAru {
      var q := w.lastDelivered + 1;
      if w.slots[q].delivered {
        AgreedRetains(w.(lastDelivered := q));
      } else if !w.slots[q].packet.service.Safe? {
        var e := DeliverAt(w, q).(lastDelivered := q);
        assert Retains(w, e);
        AgreedRetains(e);
        RetainsTrans(w, e, DeliverAgreed(w).value);
      }
    }
  }

  lemma {:induction false} EarlyRetains(w: Window, q: int, last: int)
    ensures Retains(w, DeliverEarly(w, q, last))
    decreases last - q
  {
    if q <= last {
      if q in w.slots && !w.slots[q].delivered && Early(w.slots[q].packet) {
        EarlyRetains(DeliverAt(w, q), q + 1, last);
        RetainsTrans(w, DeliverAt(w, q), DeliverEarly(w, q, last));
      } else {
        EarlyRetains(w, q + 1, last);
      }
    }
  }

  lemma AfterRetains(w: Window, tokenAru: int, prevAru: int, datagrams: nat)
    requires AfterToken(w, tokenAru, prevAru, datagrams).Go?
    ensures Retains(w, AfterToken(w, tokenAru, prevAru, datagrams).value)
  {
    hide DeliverAgreed, Discard, DeliverEarly;
    var w0 := w.(aru := if tokenAru > prevAru then prevAru else tokenAru);
    var w1 := Discard(w0).value;
    DiscardRetains(w0);
    AgreedRetains(w1);
    var w2 := DeliverAgreed(w1).value;
    EarlyRetains(w2, Max(w2.highest - datagrams + 1, w2.lastDelivered + 1), w2.highest);
    RetainsTrans(w1, w2, DeliverReliable(w2, w2.highest - datagrams + 1, datagrams));
  }

  /** The daemon has every packet it has sent, or knows it to be stable. */
  ghost predicate Keeps(w: Window, h: seq<Packet>, id: int) {
    forall k :: 0 <= k < |h| && h[k].sender == id ==> k < w.highest && (k + 1 in w.slots || k < w.lastDiscarded)
  }

  lemma KeepsRetained(w: Window, e: Window, h: seq<Packet>, id: int)
    requires Keeps(w, h, id) && Retains(w, e)
    ensures Keeps(e, h, id)
  {
  }

  lemma BeforeTokenKeepsOwn(w: Window, t: Token, sent: seq<Packet>, h: seq<Packet>, id: int)
    requires W.Inv(w, h) && t.num == |h| && BeforeToken(w, t, sent).Go? && Keeps(w, h, id)
    ensures Keeps(BeforeToken(w, t, sent).value, h + sent, id)
  {
    var w0 := CatchUp(w, t.num);
    assert w.highest <= |h|;
    hide W.Inv;
    W.AppendedHeld(w0, sent);
    AppendKeepsOld(w0, sent);
  }

  lemma {:induction false} AppendKeepsOld(w: Window, ps: seq<Packet>)
    requires AppendAll(w, ps).Go?
    ensures AppendAll(w, ps).value.lastDiscarded == w.lastDiscarded
    decreases |ps|
  {
    if ps != [] {
      AppendKeepsOld(Append(w, ps[0]).value, ps[1..]);
    }
  }

  lemma VisitKeepsOwn(leader: bool, d: Daemon, t: Token, plan: Plan, h: seq<Packet>)
    requires W.Inv(d.win, h) && QueueOk(d.queue) && t.num == |h| && HandleToken(leader, d, t, plan).Go?
    requires Keeps(d.win, h, d.id)
    ensures
      var r := HandleToken(leader, d, t, plan).value;
      Keeps(r.daemon.win, h + r.sent, d.id)
  {
    hide BeforeToken, AfterToken, W.Inv, Keeps, Retains, StampAru;
    var sent := TakePackets(d.id, d.queue, plan.count).0;
    var w := BeforeToken(d.win, t, sent).value;
    BeforeTokenKeepsOwn(d.win, t, sent, h, d.id);
    var r := HandleToken(leader, d, t, plan).value;
    AfterRetains(w, r.token.aru, d.prevAru, plan.datagrams);
    KeepsRetained(w, r.daemon.win, h + sent, d.id);
  }

  lemma KeepsOthers(w: Window, h: seq<Packet>, ps: seq<Packet>, sender: int, id: int)
    requires Keeps(w, h, id) && AllFrom(ps, sender) && sender != id
    ensures Keeps(w, h + ps, id)
  {
  }

  // ----- the invariant

  ghost predicate MemberSends(d: Daemon, h: seq<Packet>) {
    Supplied(d, h) && Keeps(d.win, h, d.id)
  }

  ghost predicate SourcesOk(s: Sys) {
    && s.Up? && SendersOk(s.history)
    && forall i :: 0 <= i < |s.ring| ==> MemberSends(s.ring[i].daemon, s.history)
  }

  lemma {:induction false} NobodySent(id: int)
    ensures Assemble(Own([], id)) == Go(Track([], []))
  {
  }

  lemma InitSources(s: Sys)
    requires Init(s)
    ensures SourcesOk(s)
  {
    hide Own, Assemble;
    forall id
      ensures Assemble(Own(s.history, id)) == Go(Track([], []))
    {
      NobodySent(id);
    }
    forall i | 0 <= i < |s.ring|
      ensures MemberSends(s.ring[i].daemon, s.history)
    {
      assert FreshMember(s.ring[i]);
    }
  }

  /** Where member i stands after the step. */
  function Place(n: nat, step: Step, i: nat): nat
    requires i < n
  {
    if step.PassToken? then if i == 0 then n - 1 else i - 1 else i
  }

  /** The message that the step hands to member i, if any. */
  function HandedIn(step: Step, i: nat): seq<Message> {
    if step.Submit? && step.i == i then [step.m] else []
  }

  /** One member before and after a step. */
  ghost predicate Accounted(d: Daemon, h: seq<Packet>, d': Daemon, h': seq<Packet>, more: seq<Message>) {
    && d'.id == d.id && MemberSends(d', h')
    && Assemble(Own(h, d.id)).Go? && Submitted(d', h') == Submitted(d, h) + more
  }

  /** The same for all members, each at its new place. */
  ghost predicate AllAccounted(s: Sys, step: Step, s': Sys) {
    && s.Up? && s'.Up? && |s'.ring| == |s.ring| && SendersOk(s'.history)
    && forall i :: 0 <= i < |s.ring| ==>
         Accounted(s.ring[i].daemon, s.history, s'.ring[Place(|s.ring|, step, i)].daemon, s'.history, HandedIn(step, i))
  }

  lemma HolderAccounted(leader: bool, d: Daemon, t: Token, plan: Plan, h: seq<Packet>)
    requires W.Inv(d.win, h) && QueueOk(d.queue) && t.num == |h| && HandleToken(leader, d, t, plan).Go?
    requires MemberSends(d, h)
    ensures
      var r := HandleToken(leader, d, t, plan).value;
      Accounted(d, h, r.daemon, h + r.sent, []) && AllFrom(r.sent, d.id)
  {
    var r := HandleToken(leader, d, t, plan).value;
    VisitKeepsOwn(leader, d, t, plan, h);
    HolderQueue(leader, d, t, plan);
    hide HandleToken, Keeps, W.Inv, Assemble, Own, TakePackets, InFlight;
    TakeSupplies(d.id, d.queue, plan.count, h);
  }

  lemma HolderQueue(leader: bool, d: Daemon, t: Token, plan: Plan)
    requires QueueOk(d.queue) && HandleToken(leader, d, t, plan).Go?
    ensures
      var r := HandleToken(leader, d, t, plan).value;
      (r.sent, r.daemon.queue) == TakePackets(d.id, d.queue, plan.count) && r.daemon.id == d.id
  {
    hide BeforeToken, AfterToken, TakePackets, NextToken, StampAru;
  }

  lemma OtherAccounted(d: Daemon, h: seq<Packet>, ps: seq<Packet>, sender: int)
    requires MemberSends(d, h) && AllFrom(ps, sender) && sender != d.id
    ensures Accounted(d, h, d, h + ps, [])
  {
    KeepsOthers(d.win, h, ps, sender, d.id);
    hide Keeps, Own, Assemble, InFlight;
    OthersPackets(h, ps, sender, d.id);
  }

  lemma SendersAfter(h: seq<Packet>, ps: seq<Packet>, sender: int)
    requires SendersOk(h) && AllFrom(ps, sender) && Assemble(Own(h + ps, sender)).Go?
    ensures SendersOk(h + ps)
  {
    hide Own, Assemble, AllFrom;
    forall id
      ensures Assemble(Own(h + ps, id)).Go?
    {
      if id != sender {
        OthersPackets(h, ps, sender, id);
        assert Assemble(Own(h, id)).Go?;
      }
    }
  }

  lemma PassAccounted(s: Sys, plan: Plan, hurried: bool, l: Limits)
    requires Inv(s) && SourcesOk(s) && LimitsOk(l) && Enabled(s, PassToken(plan, hurried), l)
    ensures AllAccounted(s, PassToken(plan, hurried), Apply(s, PassToken(plan, hurried), l))
  {
    hide A.Inv, W.Inv, HandleToken, A.Visit, PlanOk, ArqOk, Fits, RequestsOk, FlowSum, SeenOk, MemberSends, SendersOk, VisitOk, Accounted;
    VisitFacts(s, plan, hurried);
    VisitSucceeds(s, plan, hurried);
    var m, t, n := s.ring[0], Copy(s.token, hurried), |s.ring|;
    var r := HandleToken(m.leader, m.daemon, t, plan).value;
    HolderAccounted(m.leader, m.daemon, t, plan, s.history);
    AccountedSender(m.daemon, s.history, r.daemon, s.history + r.sent);
    SendersAfter(s.history, r.sent, m.daemon.id);
    var s' := Apply(s, PassToken(plan, hurried), l);
    forall i | 0 < i < n
      ensures s'.ring[i - 1] == s.ring[i]
      ensures Accounted(s.ring[i].daemon, s.history, s.ring[i].daemon, s'.history, [])
    {
      E.DistinctMembers(s, 0, i);
      OtherAccounted(s.ring[i].daemon, s.history, r.sent, m.daemon.id);
    }
  }

  lemma AccountedSender(d: Daemon, h: seq<Packet>, d': Daemon, h': seq<Packet>)
    requires Accounted(d, h, d', h', [])
    ensures Assemble(Own(h', d.id)).Go?
  {
  }

  /** A daemon that does not send: its packets and its queue are as before. */
  lemma IdleAccounted(d: Daemon, d': Daemon, h: seq<Packet>, more: seq<Message>)
    requires MemberSends(d, h) && d'.id == d.id && Retains(d.win, d'.win)
    requires d'.queue == d.queue.(messages := d.queue.messages + more)
    requires forall i :: 0 <= i < |more| ==> more[i].parts != []
    ensures Accounted(d, h, d', h, more)
  {
    KeepsRetained(d.win, d'.win, h, d.id);
    hide Own, Assemble, Keeps;
  }

  lemma OneAccounted(s: Sys, step: Step, i: nat, d: Daemon)
    requires s.Up? && i < |s.ring| && !step.PassToken? && SourcesOk(s)
    requires step.Submit? ==> step.i == i
    requires Accounted(s.ring[i].daemon, s.history, d, s.history, HandedIn(step, i))
    ensures AllAccounted(s, step, s.(ring := SetDaemon(s.ring, i, d)))
  {
    hide MemberSends, SendersOk;
    forall j | 0 <= j < |s.ring| && j != i
      ensures Accounted(s.ring[j].daemon, s.history, s.ring[j].daemon, s.history, [])
    {
      SameAccounted(s.ring[j].daemon, s.history);
    }
  }

  lemma SameAccounted(d: Daemon, h: seq<Packet>)
    requires MemberSends(d, h)
    ensures Accounted(d, h, d, h, [])
  {
  }

  lemma ReceiveAccounted(s: Sys, i: nat, q: int, l: Limits)
    requires Inv(s) && SourcesOk(s) && Enabled(s, ReceivePacket(i, q), l)
    ensures AllAccounted(s, ReceivePacket(i, q), Apply(s, ReceivePacket(i, q), l))
  {
    hide A.Inv, W.Inv, ArqOk, FlowSum, HandlePacket, Fits, RequestsOk, SeenOk, AllAccounted, Accounted, MemberSends, SendersOk;
    var d := s.ring[i].daemon;
    assert MemberOk(s.ring[i], s.history);
    W.PacketKeepsInv(d.win, q, s.history);
    var d' := d.(win := HandlePacket(d.win, q, s.history[q - 1]).value);
    assert Retains(d.win, d'.win);
    assert d.queue.messages + [] == d.queue.messages;
    IdleAccounted(d, d', s.history, []);
    OneAccounted(s, ReceivePacket(i, q), i, d');
  }

  lemma SubmitAccounted(s: Sys, i: nat, m: Message, l: Limits)
    requires SourcesOk(s) && Enabled(s, Submit(i, m), l)
    ensures AllAccounted(s, Submit(i, m), Apply(s, Submit(i, m), l))
  {
    hide AllAccounted, Accounted, MemberSends, SendersOk;
    var d := s.ring[i].daemon;
    var d' := d.(queue := d.queue.(messages := d.queue.messages + [m]));
    IdleAccounted(d, d', s.history, [m]);
    OneAccounted(s, Submit(i, m), i, d');
  }

  /** Whatever happens, no message is lost, invented, repeated or reordered on its way from the
      clients of a daemon through its queue into the packets of the ring. */
  lemma StepAccounts(s: Sys, step: Step, l: Limits)
    requires Inv(s) && SourcesOk(s) && LimitsOk(l) && Enabled(s, step, l)
    ensures AllAccounted(s, step, Apply(s, step, l))
  {
    hide Inv, SourcesOk, Enabled, Apply, AllAccounted;
    match step
    case PassToken(plan, hurried) => PassAccounted(s, plan, hurried, l);
    case StaleToken(i, k) => StaleAccounted(s, i, k, l);
    case ReceivePacket(i, q) => ReceiveAccounted(s, i, q, l);
    case Submit(i, m) => SubmitAccounted(s, i, m, l);
  }

  lemma StaleAccounted(s: Sys, i: nat, k: nat, l: Limits)
    requires Inv(s) && SourcesOk(s) && Enabled(s, StaleToken(i, k), l)
    ensures AllAccounted(s, StaleToken(i, k), Apply(s, StaleToken(i, k), l))
  {
    hide Inv, MemberSends, SendersOk, Apply, Accounted;
    StaleIsIgnored(s, i, k, l);
    forall j | 0 <= j < |s.ring|
      ensures Accounted(s.ring[j].daemon, s.history, s.ring[j].daemon, s.history, [])
    {
      SameAccounted(s.ring[j].daemon, s.history);
    }
  }

  /** Every place of the ring is some member's place. */
  lemma PlacesCover(n: nat, step: Step, j: nat)
    requires j < n
    ensures exists i :: 0 <= i < n && Place(n, step, i) == j
  {
    var i := if step.PassToken? then if j == n - 1 then 0 else j + 1 else j;
    assert Place(n, step, i) == j;
  }

  lemma AccountedSources(s: Sys, step: Step, s': Sys)
    requires AllAccounted(s, step, s')
    ensures SourcesOk(s')
  {
    hide SendersOk, MemberSends;
    forall j | 0 <= j < |s'.ring|
      ensures MemberSends(s'.ring[j].daemon, s'.history)
    {
      PlacesCover(|s.ring|, step, j);
      var i :| 0 <= i < |s.ring| && Place(|s.ring|, step, i) == j;
      assert Accounted(s.ring[i].daemon, s.history, s'.ring[j].daemon, s'.history, HandedIn(step, i));
    }
  }

  // ----- whole runs

  lemma DrivenIsRun(trace: seq<Sys>, steps: seq<Step>, l: Limits)
    requires Driven(trace, steps, l)
    ensures Run(trace, l)
  {
    hide Enabled, Apply, Init;
    forall i | 0 <= i < |trace| - 1
      ensures Next(trace[i], trace[i + 1], l)
    {
      assert Enabled(trace[i], steps[i], l) && trace[i + 1] == Apply(trace[i], steps[i], l);
    }
  }

  lemma {:induction false} RunSources(trace: seq<Sys>, steps: seq<Step>, l: Limits, i: nat)
    requires Driven(trace, steps, l) && LimitsOk(l) && HarmlessStart(trace[0]) && i < |trace|
    ensures Inv(trace[i]) && SourcesOk(trace[i])
  {
    hide Inv, SourcesOk, Enabled, Apply, Init, AllAccounted;
    DrivenIsRun(trace, steps, l);
    RunKeepsInv(trace, l, i);
    if i == 0 {
      InitSources(trace[0]);
    } else {
      RunSources(trace, steps, l, i - 1);
      StepAccounts(trace[i - 1], steps[i - 1], l);
      AccountedSources(trace[i - 1], steps[i - 1], trace[i]);
    }
  }

  /** What was waiting on the queue of daemon `id`. */
  function Waiting(ring: seq<Member>, id: int): seq<Message> {
    if ring == [] then []
    else if ring[0].daemon.id == id then ring[0].daemon.queue.messages
    else Waiting(ring[1..], id)
  }

  /** Everything the clients of daemon `id` have handed in up to state i of the run. */
  function Accepted(trace: seq<Sys>, steps: seq<Step>, i: nat, id: int): seq<Message>
    requires i < |trace| == |steps| + 1 && forall k :: 0 <= k < |trace| ==> trace[k].Up?
  {
    if i == 0 then Waiting(trace[0].ring, id)
    else
      var step := steps[i - 1];
      Accepted(trace, steps, i - 1, id) +
      (if step.Submit? && step.i < |trace[i - 1].ring| && trace[i - 1].ring[step.i].daemon.id == id then [step.m] else [])
  }

  ghost predicate AllUp(trace: seq<Sys>) {
    forall k :: 0 <= k < |trace| ==> trace[k].Up?
  }

  lemma {:induction false} WaitingIs(ring: seq<Member>, i: nat)
    requires i < |ring|
    requires forall j, k :: 0 <= j < k < |ring| ==> ring[j].daemon.id != ring[k].daemon.id
    ensures Waiting(ring, ring[i].daemon.id) == ring[i].daemon.queue.messages
  {
    if i > 0 {
      assert ring[1..][i - 1] == ring[i];
      WaitingIs(ring[1..], i - 1);
    }
  }

  ghost predicate Faithful(trace: seq<Sys>, steps: seq<Step>, i: nat, b: nat)
    requires i < |trace| == |steps| + 1 && AllUp(trace) && b < |trace[i].ring|
  {
    var d, h := trace[i].ring[b].daemon, trace[i].history;
    Assemble(Own(h, d.id)).Go? && Submitted(d, h) == Accepted(trace, steps, i, d.id)
  }

  /** At every moment what a daemon has sent whole, followed by what is on its queue, is what its
      clients have handed in. */
  lemma {:induction false} SendersAreFaithful(trace: seq<Sys>, steps: seq<Step>, l: Limits, i: nat, b: nat)
    requires Driven(trace, steps, l) && LimitsOk(l) && HarmlessStart(trace[0]) && i < |trace|
    requires AllUp(trace) && b < |trace[i].ring|
    ensures Faithful(trace, steps, i, b)
    decreases i
  {
    hide *;
    if i == 0 {
      FaithfulStart(trace, steps, l, b);
    } else {
      DrivenAccounts(trace, steps, l, i);
      var s, step := trace[i - 1], steps[i - 1];
      AccountedUp(s, step, trace[i]);
      PlacesCover(|s.ring|, step, b);
      var k :| 0 <= k < |s.ring| && Place(|s.ring|, step, k) == b;
      SendersAreFaithful(trace, steps, l, i - 1, k);
      SameDaemon(s, step, k);
      FaithfulStep(trace, steps, i, k, b);
    }
  }

  lemma FaithfulStart(trace: seq<Sys>, steps: seq<Step>, l: Limits, b: nat)
    requires Driven(trace, steps, l) && AllUp(trace) && b < |trace[0].ring|
    ensures Faithful(trace, steps, 0, b)
  {
    hide Enabled, Apply, Own, Assemble;
    NobodySent(trace[0].ring[b].daemon.id);
    WaitingIs(trace[0].ring, b);
  }

  lemma DrivenAccounts(trace: seq<Sys>, steps: seq<Step>, l: Limits, i: nat)
    requires Driven(trace, steps, l) && LimitsOk(l) && HarmlessStart(trace[0]) && 0 < i < |trace|
    ensures |trace| == |steps| + 1
    ensures Inv(trace[i - 1]) && AllAccounted(trace[i - 1], steps[i - 1], trace[i])
  {
    hide Inv, SourcesOk, Enabled, Apply, Init, AllAccounted;
    RunSources(trace, steps, l, i - 1);
    StepAccounts(trace[i - 1], steps[i - 1], l);
  }

  lemma AccountedUp(s: Sys, step: Step, s': Sys)
    requires AllAccounted(s, step, s')
    ensures s.Up? && s'.Up? && |s'.ring| == |s.ring|
  {
  }

  lemma FaithfulStep(trace: seq<Sys>, steps: seq<Step>, i: nat, k: nat, b: nat)
    requires 0 < i < |trace| == |steps| + 1 && AllUp(trace)
    requires AllAccounted(trace[i - 1], steps[i - 1], trace[i])
    requires k < |trace[i - 1].ring| && Place(|trace[i - 1].ring|, steps[i - 1], k) == b < |trace[i].ring|
    requires Faithful(trace, steps, i - 1, k)
    requires HandedIn(steps[i - 1], k) ==
      var s, step := trace[i - 1], steps[i - 1];
      if step.Submit? && step.i < |s.ring| && s.ring[step.i].daemon.id == s.ring[k].daemon.id then [step.m] else []
    ensures Faithful(trace, steps, i, b)
  {
    var s, s' := trace[i - 1], trace[i];
    assert Accounted(s.ring[k].daemon, s.history, s'.ring[b].daemon, s'.history, HandedIn(steps[i - 1], k));
    hide Place, HandedIn, SendersOk, Own, Assemble, Keeps, AllAccounted, InFlight;
  }

  /** A step hands a message to member k exactly if it hands it to the daemon with k's id. */
  lemma SameDaemon(s: Sys, step: Step, k: nat)
    requires s.Up? && Inv(s) && k < |s.ring|
    ensures HandedIn(step, k) ==
      if step.Submit? && step.i < |s.ring| && s.ring[step.i].daemon.id == s.ring[k].daemon.id then [step.m] else []
  {
    hide Inv;
    if step.Submit? && step.i < |s.ring| && step.i != k {
      E.DistinctMembers(s, step.i, k);
    }
  }

  // ----- the receivers

  ghost predicate IndexOk(trace: seq<Sys>, steps: seq<Step>, i: nat, a: nat, b: nat) {
    i < |trace| == |steps| + 1 && AllUp(trace) && a < |trace[i].ring| && b < |trace[i].ring|
  }

  /** What daemon a has handed up as sent by daemon b. */
  function Received(s: Sys, a: nat, b: nat): seq<Message>
    requires s.Up? && a < |s.ring| && b < |s.ring| && HandUp(Stream(s.ring[a].daemon.win.log)).Go?
  {
    MessagesOf(HandUp(Stream(s.ring[a].daemon.win.log)).value.handed, s.ring[b].daemon.id)
  }

  /** Deliver_packet never reports a sequence error; what is handed up as b's are the first of the
      messages that b's clients handed in, whole and in order; and if b's queue is empty and all
      packets are delivered, it is all of them. */
  ghost predicate Whole(trace: seq<Sys>, steps: seq<Step>, i: nat, a: nat, b: nat)
    requires IndexOk(trace, steps, i, a, b)
  {
    var s := trace[i];
    var accepted := Accepted(trace, steps, i, s.ring[b].daemon.id);
    && HandUp(Stream(s.ring[a].daemon.win.log)).Go?
    && Received(s, a, b) <= Regular(accepted)
    && (s.ring[a].daemon.win.lastDelivered == |s.history| && s.ring[b].daemon.queue.messages == [] ==>
          Received(s, a, b) == Regular(accepted))
  }

  lemma PrefixSends(h: seq<Packet>, n: nat, id: int)
    requires n <= |h| && Assemble(Own(h, id)).Go?
    ensures Assemble(Own(h[..n], id)).Go?
    ensures Assemble(Own(h[..n], id)).value.done <= Assemble(Own(h, id)).value.done
    ensures n == |h| ==> h[..n] == h
  {
    hide Own, Assemble;
    OwnPrefix(h, n, id);
    AssemblePrefix(Own(h[..n], id), Own(h, id));
  }

  lemma RegularPrefix(a: seq<Message>, b: seq<Message>, c: seq<Message>)
    requires a <= b
    ensures Regular(a) <= Regular(b + c) && (a == b && c == [] ==> Regular(a) == Regular(b + c))
  {
    hide Regular;
    assert b + c == a + (b + c)[|a|..];
    RegularConcat(a, (b + c)[|a|..]);
    if c == [] {
      assert b + c == b;
    }
  }

  lemma WholeFromWindow(w: Window, d: Daemon, h: seq<Packet>)
    requires W.Inv(w, h) && SendersOk(h)
    ensures HandUp(Stream(w.log)).Go? && Assemble(Own(h, d.id)).Go?
    ensures
      var received := MessagesOf(HandUp(Stream(w.log)).value.handed, d.id);
      && received <= Regular(Submitted(d, h))
      && (w.lastDelivered == |h| && d.queue.messages == [] ==> received == Regular(Submitted(d, h)))
  {
    T.WindowOrderly(w, h);
    assert Assemble(Own(h, d.id)).Go?;
    hide W.Inv, Own, Assemble, HandUp, MessagesOf, Regular, Parts, SendersOk, W.Ordered, W.OrderedPrefix;
    LogHandsUp(w.log, h, w.lastDelivered, d.id);
    PrefixSends(h, w.lastDelivered, d.id);
    RegularPrefix(Assemble(Own(h[..w.lastDelivered], d.id)).value.done, Assemble(Own(h, d.id)).value.done, d.queue.messages);
  }

  lemma MessagesAreWhole(trace: seq<Sys>, steps: seq<Step>, l: Limits, i: nat, a: nat, b: nat)
    requires Driven(trace, steps, l) && LimitsOk(l) && HarmlessStart(trace[0]) && IndexOk(trace, steps, i, a, b)
    ensures Whole(trace, steps, i, a, b)
  {
    var s := trace[i];
    RunSources(trace, steps, l, i);
    E.MemberInv(s, a);
    SendersAreFaithful(trace, steps, l, i, b);
    hide W.Inv, Driven, Inv, MemberSends, Own, Assemble, HandUp, MessagesOf, Regular, Accepted;
    WholeFromWindow(s.ring[a].daemon.win, s.ring[b].daemon, s.history);
  }

  /** Whole messages come in one order, across all senders: what two daemons have handed up are
      prefixes of one sequence. */
  lemma MessagesInOneOrder(trace: seq<Sys>, steps: seq<Step>, l: Limits, i: nat, a: nat, b: nat)
    requires Driven(trace, steps, l) && LimitsOk(l) && HarmlessStart(trace[0]) && IndexOk(trace, steps, i, a, b)
    ensures
      var u, v := HandUp(Stream(trace[i].ring[a].daemon.win.log)), HandUp(Stream(trace[i].ring[b].daemon.win.log));
      u.Go? && v.Go? && T.PrefixComparable(InOrder(u.value.handed), InOrder(v.value.handed))
  {
    var s := trace[i];
    RunSources(trace, steps, l, i);
    E.MemberInv(s, a);
    E.MemberInv(s, b);
    hide W.Inv, Driven, Inv, MemberSends, HandUp, InOrder;
    WholeFromWindow(s.ring[a].daemon.win, s.ring[b].daemon, s.history);
    WholeFromWindow(s.ring[b].daemon.win, s.ring[a].daemon, s.history);
    T.WindowsComparable(s.ring[a].daemon.win, s.ring[b].daemon.win, s.history);
    if W.Ordered(s.ring[a].daemon.win.log) <= W.Ordered(s.ring[b].daemon.win.log) {
      SameMessageOrder(s.ring[a].daemon.win.log, s.ring[b].daemon.win.log);
    } else {
      SameMessageOrder(s.ring[b].daemon.win.log, s.ring[a].daemon.win.log);
    }
  }
}

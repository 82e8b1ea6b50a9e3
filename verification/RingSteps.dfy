/** What one step of the ring does, in full: which packets a daemon hands up when one arrives, and
    what a daemon holds, asks for and sends again when the token has been there. */
module RingSteps {
  import opened Outcomes
  import opened Protocol
  import opened Ring
  import T = RingTheorems
  import W = WindowInvariant
  import A = AruCore

  // ----- early delivery

  /** Which of the packets from..last the loop of Deliver_reliable_packets hands up. */
  predicate Due(w: Window, from: int, last: int, k: int) {
    k in w.slots && from <= k <= last && !w.slots[k].delivered && Early(w.slots[k].packet)
  }

  /** The same buffer, but that the early ones among from..last are now handed up. */
  ghost predicate EarlyOut(w: Window, from: int, last: int, e: Window) {
    && e.slots.Keys == w.slots.Keys
    && (forall k :: k in w.slots ==> e.slots[k] == w.slots[k].(delivered := w.slots[k].delivered || Due(w, from, last, k)))
    && w.log <= e.log
    && (forall k :: k in W.Numbers(e.log) <==> k in W.Numbers(w.log) || Due(w, from, last, k))
  }

  lemma LogOne(w: Window, q: int)
    requires q in w.slots
    ensures W.Numbers(DeliverAt(w, q).log) == W.Numbers(w.log) + {q}
  {
    W.LogAppend(w.log, Delivery(q, w.slots[q].packet), []);
  }

  lemma {:induction false} EarlyExact(w: Window, from: int, last: int)
    ensures var e := DeliverEarly(w, from, last);
            && e == w.(slots := e.slots, log := e.log)
            && EarlyOut(w, from, last, e)
    decreases last - from
  {
    if from <= last {
      if Due(w, from, last, from) {
        LogOne(w, from);
        EarlyExact(DeliverAt(w, from), from + 1, last);
        var v, e := DeliverAt(w, from), DeliverEarly(w, from, last);
        assert forall k :: Due(w, from, last, k) <==> k == from || Due(v, from + 1, last, k);
      } else {
        EarlyExact(w, from + 1, last);
        assert forall k :: Due(w, from, last, k) <==> Due(w, from + 1, last, k);
      }
    }
  }

  // ----- delivery in order

  /** Which of the packets up to `high` are handed up in order: those not handed up early. */
  predicate InOrder(w: Window, high: int, k: int) {
    k in w.slots && w.lastDelivered < k <= high && !w.slots[k].delivered
  }

  /** The same buffer, but that delivery in order has got further. */
  ghost predicate MovedOn(w: Window, e: Window) {
    && e.slots.Keys == w.slots.Keys && w.lastDelivered <= e.lastDelivered
    && (forall k :: k in w.slots ==> e.slots[k] == w.slots[k].(delivered := w.slots[k].delivered || InOrder(w, e.lastDelivered, k)))
    && w.log <= e.log
    && (forall k :: k in W.Numbers(e.log) <==> k in W.Numbers(w.log) || InOrder(w, e.lastDelivered, k))
  }

  lemma {:induction false} AgreedExact(w: Window)
    requires DeliverAgreed(w).Go?
    ensures MovedOn(w, DeliverAgreed(w).value)
    decreases w.myAru - w.lastDelivered
  {
    if w.lastDelivered < w.myAru {
      var q := w.lastDelivered + 1;
      var e := DeliverAgreed(w).value;
      if w.slots[q].delivered {
        var v := w.(lastDelivered := q);
        AgreedExact(v);
        hide DeliverAgreed, W.Numbers;
        assert forall k :: InOrder(w, e.lastDelivered, k) <==> InOrder(v, e.lastDelivered, k);
      } else if !w.slots[q].packet.service.Safe? {
        LogOne(w, q);
        var v := DeliverAt(w, q).(lastDelivered := q);
        AgreedExact(v);
        hide DeliverAgreed, W.Numbers;
        assert forall k :: InOrder(w, e.lastDelivered, k) <==> k == q || InOrder(v, e.lastDelivered, k);
      }
    }
  }

  // ----- a packet arrives

  /** Neither stable already nor held. */
  predicate IsNew(w: Window, q: int) {
    w.aru < q && q !in w.slots
  }

  /** The buffer has taken packet q in and has otherwise kept what it had. */
  ghost predicate TakenIn(w: Window, q: int, p: Packet, e: Window) {
    && e.slots.Keys == w.slots.Keys + {q} && q in e.slots && e.slots[q].packet == p
    && (forall k :: k in w.slots ==> e.slots[k].packet == w.slots[k].packet)
    && e.highest == Max(w.highest, q) && e.aru == w.aru && e.lastDiscarded == w.lastDiscarded
  }

  /** A packet after a gap is handed up at once if it is a whole RELIABLE message, and not at all
      otherwise. */
  ghost predicate AfterGap(w: Window, q: int, p: Packet, e: Window) {
    && e.myAru == w.myAru && e.lastDelivered == w.lastDelivered
    && e.log == w.log + (if p.service == Reliable && p.index == -1 then [Delivery(q, p)] else [])
  }

  /** A packet that closes the gap moves My_aru to the next gap, and everything up to there is handed
      up unless a SAFE packet that is not stable stops it. */
  ghost predicate GapClosed(w: Window, q: int, h: seq<Packet>, e: Window) {
    && q <= e.myAru && e.myAru + 1 !in e.slots && (forall k :: q <= k <= e.myAru ==> k in e.slots)
    && w.lastDelivered <= e.lastDelivered <= e.myAru
    && (e.lastDelivered < e.myAru ==> 0 <= e.lastDelivered < |h| && h[e.lastDelivered].service.Safe? && e.aru <= e.lastDelivered)
    && w.log <= e.log
    && (forall k :: k in W.Numbers(e.log) <==> k in W.Numbers(w.log) || w.lastDelivered < k <= e.lastDelivered)
  }

  ghost predicate ArrivedExactly(w: Window, q: int, h: seq<Packet>, e: Window)
    requires 0 < q <= |h|
  {
    if !IsNew(w, q) then e == w
    else TakenIn(w, q, h[q - 1], e) && if q == w.myAru + 1 then GapClosed(w, q, h, e) else AfterGap(w, q, h[q - 1], e)
  }

  lemma GapExact(w: Window, q: int, h: seq<Packet>)
    requires W.Inv(w, h) && 0 < q <= |h| && IsNew(w, q) && q != w.myAru + 1
    ensures HandlePacket(w, q, h[q - 1]).Go?
    ensures TakenIn(w, q, h[q - 1], HandlePacket(w, q, h[q - 1]).value) && AfterGap(w, q, h[q - 1], HandlePacket(w, q, h[q - 1]).value)
  {
    assert q > w.lastDelivered;
    hide W.Inv;
    var v := W.Inserted(w, q, h[q - 1]);
    assert DeliverReliable(v, q, 1) == DeliverEarly(v, q, q);
    assert DeliverEarly(v, q, q) == (if Early(h[q - 1]) then DeliverAt(v, q) else v);
  }

  lemma ClosesExact(w: Window, q: int, h: seq<Packet>)
    requires W.Inv(w, h) && 0 < q <= |h| && IsNew(w, q) && q == w.myAru + 1
    ensures HandlePacket(w, q, h[q - 1]).Go?
    ensures TakenIn(w, q, h[q - 1], HandlePacket(w, q, h[q - 1]).value) && GapClosed(w, q, h, HandlePacket(w, q, h[q - 1]).value)
  {
    W.InOrderPacketKeepsInv(w, q, h);
    var e := HandlePacket(w, q, h[q - 1]).value;
    var v := W.Inserted(w, q, h[q - 1]);
    var u := v.(myAru := Advance(v.slots, w.myAru, v.highest));
    assert DeliverAgreed(u) == Outcome<Window>.Go(e);
    AgreedExact(u);
    AgreedSame(u);
    DeliveredUpTo(e, h);
    hide W.Inv, HandlePacket, DeliverAgreed, W.Numbers, MovedOn;
    ClosedNumbers(w, q, u, e, h);
  }

  lemma ClosedNumbers(w: Window, q: int, u: Window, e: Window, h: seq<Packet>)
    requires W.Inv(w, h) && W.Inv(e, h) && MovedOn(u, e) && q !in w.slots && 0 < q <= |h|
    requires u.slots == w.slots[q := Slot(h[q - 1], false)] && u.lastDelivered == w.lastDelivered < q
    requires u == w.(slots := u.slots, highest := u.highest, myAru := u.myAru) && e.lastDiscarded == w.lastDiscarded
    ensures w.log <= e.log && w.lastDelivered <= e.lastDelivered
    ensures forall k :: k in W.Numbers(e.log) <==> k in W.Numbers(w.log) || w.lastDelivered < k <= e.lastDelivered
    ensures e.slots.Keys == w.slots.Keys + {q} && forall k :: k in u.slots ==> e.slots[k].packet == u.slots[k].packet
  {
    DeliveredUpTo(e, h);
    DeliveredUpTo(w, h);
    hide W.Inv, W.Numbers;
    forall k
      ensures k in W.Numbers(e.log) <==> k in W.Numbers(w.log) || w.lastDelivered < k <= e.lastDelivered
    {
      if k in u.slots {
        assert e.slots[k] == u.slots[k].(delivered := u.slots[k].delivered || InOrder(u, e.lastDelivered, k));
      }
    }
  }

  lemma AgreedSame(w: Window)
    requires DeliverAgreed(w).Go?
    ensures var e := DeliverAgreed(w).value;
            e == w.(slots := e.slots, lastDelivered := e.lastDelivered, log := e.log)
    decreases w.myAru - w.lastDelivered
  {
  }

  /** What the invariant says of the log and of where delivery stands. */
  lemma DeliveredUpTo(w: Window, h: seq<Packet>)
    requires W.Inv(w, h)
    ensures w.aru == w.lastDiscarded <= w.lastDelivered <= w.myAru <= w.highest <= |h|
    ensures forall k :: k in W.Numbers(w.log) <==> 0 < k <= w.lastDiscarded || (k in w.slots && w.slots[k].delivered)
    ensures forall k :: w.lastDiscarded < k <= w.myAru ==> k in w.slots
    ensures forall k :: k in w.slots && k <= w.lastDelivered ==> w.slots[k].delivered && 0 < k && w.lastDiscarded < k
    ensures w.myAru + 1 !in w.slots && 0 <= w.lastDiscarded
    ensures w.lastDelivered < w.myAru ==> 0 <= w.lastDelivered < |h| && h[w.lastDelivered].service.Safe? && w.aru <= w.lastDelivered
    ensures forall k :: k in w.slots ==> 0 < k <= |h| && w.slots[k].packet == h[k - 1]
  {
    assert forall k :: k in w.slots ==> 0 < k <= |h|;
  }

  /** What a daemon does with a packet, by what it held before. */
  lemma ArrivalExact(w: Window, q: int, h: seq<Packet>)
    requires W.Inv(w, h) && 0 < q <= |h|
    ensures HandlePacket(w, q, h[q - 1]).Go? && ArrivedExactly(w, q, h, HandlePacket(w, q, h[q - 1]).value)
  {
    hide W.Inv, GapClosed, AfterGap, TakenIn;
    if IsNew(w, q) {
      if q == w.myAru + 1 {
        ClosesExact(w, q, h);
      } else {
        GapExact(w, q, h);
      }
    }
  }

  /** The daemon at place a, and nothing else, is different. */
  ghost predicate OnlyAt(s: Sys, s': Sys, a: nat) {
    && s.Up? && s'.Up? && s'.token == s.token && s'.history == s.history
    && |s'.ring| == |s.ring| && a < |s.ring|
    && s'.ring[a] == s.ring[a].(daemon := s'.ring[a].daemon)
    && forall j :: 0 <= j < |s.ring| && j != a ==> s'.ring[j] == s.ring[j]
  }

  lemma RunMember(s: Sys, a: nat)
    requires Inv(s) && a < |s.ring|
    ensures W.Inv(s.ring[a].daemon.win, s.history)
  {
    hide W.Inv, A.Inv, ArqOk, Fits, RequestsOk, FlowSum, SeenOk;
    assert MemberOk(s.ring[a], s.history);
  }

  ghost predicate ArrivedAt(s: Sys, s': Sys, a: nat, q: int) {
    && OnlyAt(s, s', a) && 0 < q <= |s.history|
    && s'.ring[a].daemon == s.ring[a].daemon.(win := s'.ring[a].daemon.win)
    && ArrivedExactly(s.ring[a].daemon.win, q, s.history, s'.ring[a].daemon.win)
  }

  lemma ReceiveApplied(s: Sys, a: nat, q: int, l: Limits)
    requires Enabled(s, ReceivePacket(a, q), l) && HandlePacket(s.ring[a].daemon.win, q, s.history[q - 1]).Go?
    requires ArrivedExactly(s.ring[a].daemon.win, q, s.history, HandlePacket(s.ring[a].daemon.win, q, s.history[q - 1]).value)
    ensures ArrivedAt(s, Apply(s, ReceivePacket(a, q), l), a, q)
  {
    hide HandlePacket, ArrivedExactly;
  }

  /** On every run: the arrival of a packet changes the buffer of that daemon as ArrivedExactly says. */
  lemma PacketsArrive(trace: seq<Sys>, l: Limits, i: nat, a: nat, q: int)
    requires Run(trace, l) && LimitsOk(l) && HarmlessStart(trace[0]) && i < |trace|
    requires Enabled(trace[i], ReceivePacket(a, q), l)
    ensures ArrivedAt(trace[i], Apply(trace[i], ReceivePacket(a, q), l), a, q)
  {
    var s := trace[i];
    hide HandlePacket, ArrivedAt, ArrivedExactly, W.Inv, Inv, Run, HarmlessStart, LimitsOk, Apply;
    RunKeepsInv(trace, l, i);
    RunMember(s, a);
    ArrivalExact(s.ring[a].daemon.win, q, s.history);
    ReceiveApplied(s, a, q, l);
  }

  // ----- the token is there

  lemma {:induction false} AppendedExactly(w: Window, ps: seq<Packet>)
    requires AppendAll(w, ps).Go?
    ensures var e := AppendAll(w, ps).value;
            && e.highest == w.highest + |ps| && e == w.(slots := e.slots, highest := e.highest)
            && (forall k :: k in e.slots <==> k in w.slots || w.highest < k <= w.highest + |ps|)
            && (forall k :: k in w.slots ==> e.slots[k] == w.slots[k])
            && (forall k :: 0 <= k < |ps| ==> e.slots[w.highest + k + 1] == Slot(ps[k], false))
    decreases |ps|
  {
    if ps != [] {
      var v := Append(w, ps[0]).value;
      AppendedExactly(v, ps[1..]);
      var e := AppendAll(w, ps).value;
      assert v.slots[w.highest + 1] == Slot(ps[0], false) == e.slots[w.highest + 1];
      forall k | 0 <= k < |ps|
        ensures e.slots[w.highest + k + 1] == Slot(ps[k], false)
      {
        if k > 0 {
          assert ps[k] == ps[1..][k - 1];
        }
      }
    }
  }

  /** The packets that Deliver_reliable_packets is run over when the token has left: as many of the
      newest as datagrams have been sent. */
  predicate Newest(w: Window, datagrams: nat, k: int) {
    w.highest - datagrams < k <= w.highest
  }

  /** After the token: what is stable is gone and handed up, delivery in order has gone on, and of
      the newest packets the early ones are handed up. */
  ghost predicate CleanedUp(w: Window, datagrams: nat, h: seq<Packet>, e: Window) {
    && (forall k :: k in e.slots <==> k in w.slots && e.aru < k)
    && w.lastDelivered <= e.lastDelivered
    && (forall k :: k in W.Numbers(e.log) <==>
          || k in W.Numbers(w.log)
          || w.lastDelivered < k <= e.lastDelivered
          || (k in e.slots && 0 < k <= |h| && Newest(e, datagrams, k) && Early(h[k - 1])))
  }

  lemma DiscardedExactly(w: Window, h: seq<Packet>)
    requires W.Core(w, h) && W.Maximal(w) && w.lastDiscarded <= w.aru <= w.myAru
    ensures Discard(w).Go?
    ensures var e := Discard(w).value;
            && W.Core(e, h) && W.Maximal(e) && e.lastDiscarded == e.aru == w.aru
            && (forall k :: k in e.slots <==> k in w.slots && e.aru < k)
            && (forall k :: k in e.slots ==> e.slots[k] == w.slots[k])
            && w.lastDelivered <= e.lastDelivered && e.highest == w.highest
            && (e.lastDelivered == w.lastDelivered || e.lastDelivered <= e.aru)
  {
    W.DiscardKeeps(w, h);
    W.DiscardToAru(w, h);
    DiscardDelivers(w);
    var e := Discard(w).value;
    assert forall k :: k in e.slots ==> e.aru < k;
  }

  lemma {:induction false} DiscardDelivers(w: Window)
    requires Discard(w).Go?
    ensures Discard(w).value.lastDelivered == (if w.lastDiscarded < w.aru then Max(w.lastDelivered, w.aru) else w.lastDelivered)
    decreases w.aru - w.lastDiscarded
  {
    if w.lastDiscarded < w.aru {
      DiscardDelivers(DiscardOne(w));
    }
  }

  lemma CleanedExactly(w: Window, tokenAru: int, prevAru: int, datagrams: nat, h: seq<Packet>)
    requires W.Core(w, h) && W.Maximal(w)
    requires w.lastDiscarded <= (if tokenAru > prevAru then prevAru else tokenAru) <= w.myAru
    ensures AfterToken(w, tokenAru, prevAru, datagrams).Go?
    ensures CleanedUp(w, datagrams, h, AfterToken(w, tokenAru, prevAru, datagrams).value)
  {
    var v := w.(aru := if tokenAru > prevAru then prevAru else tokenAru);
    hide W.Core, W.Maximal, AfterToken, CleanedUp, Discard;
    SetAru(w, v.aru, h);
    DiscardedExactly(v, h);
    var v1 := Discard(v).value;
    DeliveredAfter(w, v, v1, datagrams, h);
    var v2 := DeliverAgreed(v1).value;
    AfterTokenIs(w, tokenAru, prevAru, datagrams, v1, v2);
  }

  lemma SetAru(w: Window, aru: int, h: seq<Packet>)
    requires W.Core(w, h) && W.Maximal(w)
    ensures W.Core(w.(aru := aru), h) && W.Maximal(w.(aru := aru))
  {
    W.SetAruKeeps(w, aru, h);
    hide W.Core;
  }

  lemma AfterTokenIs(w: Window, tokenAru: int, prevAru: int, datagrams: nat, v1: Window, v2: Window)
    requires Discard(w.(aru := if tokenAru > prevAru then prevAru else tokenAru)) == Outcome<Window>.Go(v1)
    requires DeliverAgreed(v1) == Outcome<Window>.Go(v2)
    ensures AfterToken(w, tokenAru, prevAru, datagrams)
         == Outcome<Window>.Go(DeliverReliable(v2, v2.highest - datagrams + 1, datagrams))
  {
  }

  lemma DeliveredAfter(w: Window, v: Window, v1: Window, datagrams: nat, h: seq<Packet>)
    requires W.Core(w, h) && W.Core(v1, h) && v == w.(aru := v.aru)
    requires v1.lastDiscarded == v1.aru == v.aru && w.lastDiscarded <= v.aru
    requires (forall k :: k in v1.slots <==> k in v.slots && v1.aru < k) && (forall k :: k in v1.slots ==> v1.slots[k] == v.slots[k])
    requires v.lastDelivered <= v1.lastDelivered && (v1.lastDelivered == v.lastDelivered || v1.lastDelivered <= v1.aru)
    ensures DeliverAgreed(v1).Go?
    ensures var v2 := DeliverAgreed(v1).value;
            CleanedUp(w, datagrams, h, DeliverReliable(v2, v2.highest - datagrams + 1, datagrams))
  {
    hide *;
    var v2 := AgreedSummary(v1, h);
    var from := Max(v2.highest - datagrams + 1, v2.lastDelivered + 1);
    var e := EarlySummary(v2, from, h);
    DeliverReliableIs(v2, datagrams);
    NumbersAfter(w, v1, v2, e, from, datagrams, h);
    CleanedUpIs(w, v1, e, datagrams, h);
  }

  lemma CleanedUpIs(w: Window, v1: Window, e: Window, datagrams: nat, h: seq<Packet>)
    requires e.slots.Keys == v1.slots.Keys && (forall k :: k in v1.slots <==> k in w.slots && v1.aru < k) && e.aru == v1.aru
    requires w.lastDelivered <= e.lastDelivered
    requires forall k :: k in W.Numbers(e.log) <==>
              || k in W.Numbers(w.log)
              || w.lastDelivered < k <= e.lastDelivered
              || (k in e.slots && 0 < k <= |h| && Newest(e, datagrams, k) && Early(h[k - 1]))
    ensures CleanedUp(w, datagrams, h, e)
  {
    hide W.Numbers, Newest;
    assert forall k :: k in e.slots <==> k in v1.slots;
  }

  lemma AgreedSummary(v1: Window, h: seq<Packet>) returns (v2: Window)
    requires W.Core(v1, h)
    ensures DeliverAgreed(v1) == Outcome<Window>.Go(v2) && W.Core(v2, h) && MovedOn(v1, v2)
    ensures v2.slots.Keys == v1.slots.Keys && v2.aru == v1.aru && v2.lastDiscarded == v1.lastDiscarded && v1.lastDelivered <= v2.lastDelivered
  {
    W.AgreedKeeps(v1, h);
    AgreedExact(v1);
    v2 := DeliverAgreed(v1).value;
    SameKeys(v1, v2);
  }

  lemma EarlySummary(v2: Window, from: int, h: seq<Packet>) returns (e: Window)
    requires W.Core(v2, h)
    ensures e == DeliverEarly(v2, from, v2.highest) && W.Core(e, h) && EarlyOut(v2, from, v2.highest, e)
    ensures e.slots.Keys == v2.slots.Keys && e.aru == v2.aru && e.lastDiscarded == v2.lastDiscarded
    ensures e.lastDelivered == v2.lastDelivered && e.highest == v2.highest
  {
    W.EarlyKeeps(v2, from, v2.highest, h);
    EarlyExact(v2, from, v2.highest);
    e := DeliverEarly(v2, from, v2.highest);
    SameKeys(v2, e);
  }

  lemma DeliverReliableIs(w: Window, datagrams: nat)
    ensures DeliverReliable(w, w.highest - datagrams + 1, datagrams)
         == DeliverEarly(w, Max(w.highest - datagrams + 1, w.lastDelivered + 1), w.highest)
  {
  }

  lemma SameKeys(w: Window, e: Window)
    requires W.SameReceived(w, e)
    ensures e.slots.Keys == w.slots.Keys && e.aru == w.aru && e.lastDiscarded == w.lastDiscarded && e.highest == w.highest
  {
  }

  /** What Core says of the log and of where delivery stands. */
  lemma CoreLog(w: Window, h: seq<Packet>)
    requires W.Core(w, h)
    ensures 0 <= w.lastDiscarded <= w.lastDelivered <= w.myAru <= w.highest <= |h|
    ensures forall k :: k in W.Numbers(w.log) <==> 0 < k <= w.lastDiscarded || (k in w.slots && w.slots[k].delivered)
    ensures forall k :: w.lastDiscarded < k <= w.myAru ==> k in w.slots
    ensures forall k :: k in w.slots && k <= w.lastDelivered ==> w.slots[k].delivered
    ensures forall k :: k in w.slots ==> w.lastDiscarded < k <= |h| && w.slots[k].packet == h[k - 1]
  {
  }

  lemma NumbersAfter(w: Window, v1: Window, v2: Window, e: Window, from: int, datagrams: nat, h: seq<Packet>)
    requires W.Core(w, h) && W.Core(v1, h) && W.Core(e, h)
    requires v1.lastDiscarded == v1.aru == e.aru == e.lastDiscarded && w.lastDiscarded <= v1.aru
    requires forall k :: k in v1.slots <==> k in w.slots && v1.aru < k
    requires forall k :: k in v1.slots ==> v1.slots[k] == w.slots[k]
    requires w.lastDelivered <= v1.lastDelivered && (v1.lastDelivered == w.lastDelivered || v1.lastDelivered <= v1.aru)
    requires v2.lastDelivered == e.lastDelivered && e.highest == v2.highest
    requires MovedOn(v1, v2)
    requires from == Max(v2.highest - datagrams + 1, v2.lastDelivered + 1) && EarlyOut(v2, from, v2.highest, e)
    ensures forall k :: k in W.Numbers(e.log) <==>
              || k in W.Numbers(w.log)
              || w.lastDelivered < k <= e.lastDelivered
              || (k in e.slots && 0 < k <= |h| && Newest(e, datagrams, k) && Early(h[k - 1]))
  {
    CoreLog(w, h);
    CoreLog(v1, h);
    CoreLog(e, h);
    hide W.Core, W.Numbers;
    forall k
      ensures k in W.Numbers(e.log) <==>
                || k in W.Numbers(w.log)
                || w.lastDelivered < k <= e.lastDelivered
                || (k in e.slots && 0 < k <= |h| && Newest(e, datagrams, k) && Early(h[k - 1]))
    {
      if k in e.slots {
        assert k in v1.slots && k in v2.slots;
        assert v2.slots[k] == v1.slots[k].(delivered := v1.slots[k].delivered || InOrder(v1, v2.lastDelivered, k));
        assert e.slots[k] == v2.slots[k].(delivered := v2.slots[k].delivered || Due(v2, from, v2.highest, k));
      } else if k in w.slots {
        assert k <= e.aru;
      }
    }
  }

  /** What is waiting to be sent. */
  function Waiting(messages: seq<Message>): nat {
    if messages == [] then 0 else |messages[0].parts| + Waiting(messages[1..])
  }

  /** As many packets are sent as the visit has room for, or all there are. */
  lemma {:induction false} SendsAllItMay(id: int, q: Queue, count: nat)
    requires QueueOk(q)
    ensures
      var (ps, q1), all := TakePackets(id, q, count), Waiting(q.messages) - q.cur;
      |ps| == (if count < all then count else all) && Waiting(q1.messages) - q1.cur == all - |ps|
    decreases count
  {
    if count > 0 && q.messages != [] {
      SendsAllItMay(id, NextPacket(id, q).1, count - 1);
    }
    WaitingFirst(q);
  }

  lemma WaitingFirst(q: Queue)
    requires QueueOk(q)
    ensures q.cur <= Waiting(q.messages) && (q.messages != [] ==> q.cur < Waiting(q.messages))
  {
  }

  ghost predicate Increases(s: seq<int>, from: int) {
    && (forall i :: 0 <= i < |s| ==> from <= s[i])
    && forall i, j :: 0 <= i < j < |s| ==> s[i] < s[j]
  }

  lemma {:induction false} MissingIncreases(slots: map<int, Slot>, from: int, last: int)
    ensures Increases(Missing(slots, from, last), from)
    decreases last - from
  {
    if from <= last {
      var rest := Missing(slots, from + 1, last);
      MissingIncreases(slots, from + 1, last);
      assert Increases([from] + rest, from);
      assert [] + rest == rest;
    }
  }

  /** The token asks for exactly what this daemon misses of the next `room` numbers after My_aru, in
      order. */
  ghost predicate AsksExactly(w: Window, rtr: seq<int>, room: nat) {
    && (forall q :: q in rtr <==> w.myAru < q <= w.highest && q <= w.myAru + room && q !in w.slots)
    && forall i, j :: 0 <= i < j < |rtr| ==> rtr[i] < rtr[j]
  }

  /** It holds what it held and what it has sent, but for what is stable now. */
  ghost predicate HoldsExactly(w: Window, first: int, last: int, e: Window) {
    forall k :: k in e.slots <==> e.aru < k && (k in w.slots || first < k <= last)
  }

  /** It has handed up what it had, everything up to Last_delivered, and the early ones among its
      newest packets. */
  ghost predicate HandedUpExactly(w: Window, datagrams: nat, h: seq<Packet>, e: Window) {
    && w.lastDelivered <= e.lastDelivered
    && forall k :: k in W.Numbers(e.log) <==>
         || k in W.Numbers(w.log)
         || w.lastDelivered < k <= e.lastDelivered
         || (k in e.slots && 0 < k <= |h| && Newest(e, datagrams, k) && Early(h[k - 1]))
  }

  ghost predicate VisitedExactly(d: Daemon, plan: Plan, h: seq<Packet>, r: TokenResult) {
    && HoldsExactly(d.win, |h|, |h| + |r.sent|, r.daemon.win)
    && HandedUpExactly(d.win, plan.datagrams, h + r.sent, r.daemon.win)
    && AsksExactly(r.daemon.win, r.token.rtr, plan.requests)
  }

  /** The buffer when the token leaves. */
  lemma BeforeExactly(w: Window, t: Token, sent: seq<Packet>, h: seq<Packet>)
    requires W.Inv(w, h) && t.num == |h| && Answerable(w, t.rtr)
    ensures BeforeToken(w, t, sent).Go?
    ensures var e := BeforeToken(w, t, sent).value;
            && W.Core(e, h + sent) && W.Maximal(e) && e.highest == |h + sent|
            && e == w.(slots := e.slots, highest := e.highest, myAru := e.myAru)
            && forall k :: k in e.slots <==> k in w.slots || |h| < k <= |h| + |sent|
  {
    W.BeforeTokenKeeps(w, t, sent, h);
    var v := CatchUp(w, t.num);
    assert v.highest == |h|;
    AppendedExactly(v, sent);
    hide W.Core, Advance, AppendAll, Answerable;
  }

  /** One visit of the token, by what the daemon held before. */
  lemma VisitExact(leader: bool, d: Daemon, t: Token, plan: Plan, h: seq<Packet>)
    requires W.Inv(d.win, h) && QueueOk(d.queue) && t.num == |h| && Answerable(d.win, t.rtr)
    requires
      var (sent, _) := TakePackets(d.id, d.queue, plan.count);
      BeforeToken(d.win, t, sent).Go? ==>
        var w := BeforeToken(d.win, t, sent).value;
        var aru := StampAru(d.id, d.mark, w.myAru, w.highest, t).aru;
        d.win.myAru <= w.myAru <= w.highest && t.num <= w.highest ==>
          d.win.aru <= A.Min(aru, d.prevAru) <= w.myAru
    ensures HandleToken(leader, d, t, plan).Go?
    ensures VisitedExactly(d, plan, h, HandleToken(leader, d, t, plan).value)
  {
    var sent := TakePackets(d.id, d.queue, plan.count).0;
    assert d.win.lastDiscarded == d.win.aru;
    hide BeforeToken, AfterToken, StampAru, Answerable, TakePackets, Missing, W.Inv, VisitedExactly;
    W.BeforeTokenKeeps(d.win, t, sent, h);
    BeforeExactly(d.win, t, sent, h);
    var w := BeforeToken(d.win, t, sent).value;
    assert W.Bounds(w, h + sent);
    hide W.Core, W.Bounds, W.Maximal;
    var t1 := NextToken(leader, d, w, t, plan);
    hide HandleToken;
    W.AfterTokenKeeps(w, t1.aru, d.prevAru, plan.datagrams, h + sent);
    CleanedExactly(w, t1.aru, d.prevAru, plan.datagrams, h + sent);
    VisitTogether(leader, d, t, plan, h, w, AfterToken(w, t1.aru, d.prevAru, plan.datagrams).value);
  }

  lemma VisitTogether(leader: bool, d: Daemon, t: Token, plan: Plan, h: seq<Packet>, w: Window, e: Window)
    requires QueueOk(d.queue)
    requires
      var sent := TakePackets(d.id, d.queue, plan.count).0;
      var stamp := StampAru(d.id, d.mark, w.myAru, w.highest, t);
      && BeforeToken(d.win, t, sent) == Outcome<Window>.Go(w)
      && AfterToken(w, stamp.aru, d.prevAru, plan.datagrams) == Outcome<Window>.Go(e)
      && w == d.win.(slots := w.slots, highest := w.highest, myAru := w.myAru)
      && (forall k :: k in w.slots <==> k in d.win.slots || |h| < k <= |h| + |sent|)
      && e.highest == w.highest && e.myAru == w.myAru && W.Inv(e, h + sent)
      && CleanedUp(w, plan.datagrams, h + sent, e)
    ensures HandleToken(leader, d, t, plan).Go?
    ensures VisitedExactly(d, plan, h, HandleToken(leader, d, t, plan).value)
  {
    AruBelowMyAru(e, h + TakePackets(d.id, d.queue, plan.count).0);
    AsksTogether(leader, d, t, plan, w, e);
    var sent := TakePackets(d.id, d.queue, plan.count).0;
    HoldsTogether(d.win, w, e, sent, plan.datagrams, h);
    hide W.Inv, BeforeToken, AfterToken, StampAru, TakePackets, NextToken, AsksExactly, HoldsExactly, HandedUpExactly, CleanedUp;
  }

  lemma HoldsTogether(d: Window, w: Window, e: Window, sent: seq<Packet>, datagrams: nat, h: seq<Packet>)
    requires w == d.(slots := w.slots, highest := w.highest, myAru := w.myAru)
    requires forall k :: k in w.slots <==> k in d.slots || |h| < k <= |h| + |sent|
    requires CleanedUp(w, datagrams, h + sent, e)
    ensures HoldsExactly(d, |h|, |h| + |sent|, e) && HandedUpExactly(d, datagrams, h + sent, e)
  {
    hide W.Numbers, Newest;
  }

  lemma AsksTogether(leader: bool, d: Daemon, t: Token, plan: Plan, w: Window, e: Window)
    requires e.highest == w.highest && e.myAru == w.myAru && e.aru <= e.myAru
    requires forall k :: k in e.slots <==> k in w.slots && e.aru < k
    ensures AsksExactly(e, NextToken(leader, d, w, t, plan).rtr, plan.requests)
  {
    var limit := if w.highest < w.myAru + plan.requests then w.highest else w.myAru + plan.requests;
    MissingIncreases(w.slots, w.myAru + 1, limit);
    var rtr := NextToken(leader, d, w, t, plan).rtr;
    assert rtr == Missing(w.slots, w.myAru + 1, limit);
    hide StampAru, Missing, NextToken;
    forall q
      ensures q in rtr
         <==> e.myAru < q <= e.highest && q <= e.myAru + plan.requests && q !in e.slots
    {
      W.MissingExact(w.slots, w.myAru + 1, limit, q);
    }
  }

  lemma AruBelowMyAru(w: Window, h: seq<Packet>)
    requires W.Inv(w, h)
    ensures w.aru <= w.myAru
  {
  }

  // ----- on every run

  /** What a visit leaves: the first of the ring is now the last, and the rest has moved up. */
  ghost predicate Turned(s: Sys, s': Sys) {
    && s.Up? && s'.Up? && 0 < |s.ring| == |s'.ring|
    && s.history <= s'.history
    && forall j :: 0 <= j < |s.ring| - 1 ==> s'.ring[j] == s.ring[j + 1]
  }

  function Sent(s: Sys, s': Sys): seq<Packet>
    requires Turned(s, s')
  {
    s'.history[|s.history|..]
  }

  lemma VisitsTurn(s: Sys, plan: Plan, hurried: bool, l: Limits)
    requires Inv(s) && Enabled(s, PassToken(plan, hurried), l)
    ensures
      var s', d := Apply(s, PassToken(plan, hurried), l), s.ring[0].daemon;
      && Turned(s, s')
      && Sent(s, s') == TakePackets(d.id, d.queue, plan.count).0
      && VisitedExactly(d, plan, s.history, TokenResult(s'.ring[|s.ring| - 1].daemon, s'.token, Sent(s, s')))
      && s'.ring[|s.ring| - 1].seen == s.ring[0].seen + [if hurried then s.token.(rtr := []) else s.token]
  {
    hide A.Inv, W.Inv, BeforeToken, HandleToken, StampAru, Answerable, VisitedExactly, PlanOk;
    var m, t := s.ring[0], Copy(s.token, hurried);
    var d := m.daemon;
    VisitSucceeds(s, plan, hurried);
    var sent := TakePackets(d.id, d.queue, plan.count).0;
    if BeforeToken(d.win, t, sent).Go? {
      var w := BeforeToken(d.win, t, sent).value;
      if d.win.myAru <= w.myAru <= w.highest && t.num <= w.highest {
        StampIsVisit(s, t, w.highest, w.myAru);
      }
    }
    HandleTokenKeeps(m.leader, d, t, plan, s.history);
    VisitExact(m.leader, d, t, plan, s.history);
    var r := HandleToken(m.leader, d, t, plan).value;
    var s' := Apply(s, PassToken(plan, hurried), l);
    assert s' == Up(s.ring[1..] + [Member(r.daemon, m.leader, m.seen + [t])], r.token, s.history + r.sent);
    assert Sent(s, s') == r.sent;
    assert TokenResult(s'.ring[|s.ring| - 1].daemon, s'.token, Sent(s, s')) == r;
  }

  /** On every run: a visit sends what it may, in order; the daemon then holds, and has handed up,
      what VisitedExactly says, and asks for exactly what it misses. */
  lemma TokensVisit(trace: seq<Sys>, l: Limits, i: nat, plan: Plan, hurried: bool)
    requires Run(trace, l) && LimitsOk(l) && HarmlessStart(trace[0]) && i < |trace|
    requires Enabled(trace[i], PassToken(plan, hurried), l)
    ensures
      var s, s', d := trace[i], Apply(trace[i], PassToken(plan, hurried), l), trace[i].ring[0].daemon;
      var all := Waiting(d.queue.messages) - d.queue.cur;
      && Turned(s, s')
      && |Sent(s, s')| == (if plan.count < all then plan.count else all)
      && VisitedExactly(d, plan, s.history, TokenResult(s'.ring[|s.ring| - 1].daemon, s'.token, Sent(s, s')))
      && s'.ring[|s.ring| - 1].seen == s.ring[0].seen + [if hurried then s.token.(rtr := []) else s.token]
  {
    RunKeepsInv(trace, l, i);
    hide Inv, VisitedExactly, Run, HarmlessStart, Apply, Waiting, TakePackets;
    VisitsTurn(trace[i], plan, hurried, l);
    SendsAllItMay(trace[i].ring[0].daemon.id, trace[i].ring[0].daemon.queue, plan.count);
  }

  /** q is asked for exactly if the daemon that has just been visited, the last of the ring, misses it
      and there was room for it. */
  ghost predicate AskedFor(s: Sys, room: nat, q: int) {
    s.Up? && |s.ring| > 0 &&
    var w := s.ring[|s.ring| - 1].daemon.win;
    && (q in s.token.rtr <==> w.myAru < q <= w.highest && q <= w.myAru + room && !T.Has(w, q))
    && (w.myAru < w.highest && 0 < room ==> w.myAru + 1 in s.token.rtr)
  }

  /** On every run: of the numbers a visit has room for, the token asks for those that the daemon
      neither holds nor has handed up, and for no others. So My_aru + 1 is asked for whenever there
      is room and something is missing. */
  lemma MissingIsAskedFor(trace: seq<Sys>, l: Limits, i: nat, plan: Plan, hurried: bool, q: int)
    requires Run(trace, l) && LimitsOk(l) && HarmlessStart(trace[0]) && i < |trace|
    requires Enabled(trace[i], PassToken(plan, hurried), l)
    ensures AskedFor(Apply(trace[i], PassToken(plan, hurried), l), plan.requests, q)
  {
    var s := trace[i];
    var s' := Apply(s, PassToken(plan, hurried), l);
    hide *;
    RunKeepsInv(trace, l, i);
    TokensVisit(trace, l, i, plan, hurried);
    PassKeepsInv(s, plan, hurried, l);
    LastWindow(s, s', plan);
    LastAsks(s', plan.requests, q);
  }

  lemma LastAsks(s: Sys, room: nat, q: int)
    requires s.Up? && 0 < |s.ring| && W.Inv(s.ring[|s.ring| - 1].daemon.win, s.history)
    requires AsksExactly(s.ring[|s.ring| - 1].daemon.win, s.token.rtr, room)
    ensures AskedFor(s, room, q)
  {
    hide W.Inv, AsksExactly, T.Has;
    AsksForMissing(s.ring[|s.ring| - 1].daemon.win, s.history, s.token.rtr, room, q);
  }

  lemma LastWindow(s: Sys, s': Sys, plan: Plan)
    requires Inv(s') && Turned(s, s')
    requires VisitedExactly(s.ring[0].daemon, plan, s.history, TokenResult(s'.ring[|s.ring| - 1].daemon, s'.token, Sent(s, s')))
    ensures s.Up? && s'.Up? && 0 < |s'.ring| == |s.ring|
    ensures W.Inv(s'.ring[|s'.ring| - 1].daemon.win, s'.history)
    ensures AsksExactly(s'.ring[|s'.ring| - 1].daemon.win, s'.token.rtr, plan.requests)
  {
    hide W.Inv, A.Inv, ArqOk, Fits, RequestsOk, FlowSum, HoldsExactly, HandedUpExactly, AsksExactly, SeenOk;
    assert MemberOk(s'.ring[|s'.ring| - 1], s'.history);
  }

  lemma AsksForMissing(w: Window, h: seq<Packet>, rtr: seq<int>, room: nat, q: int)
    requires W.Inv(w, h) && AsksExactly(w, rtr, room)
    ensures q in rtr <==> w.myAru < q <= w.highest && q <= w.myAru + room && !T.Has(w, q)
    ensures w.myAru < w.highest && 0 < room ==> w.myAru + 1 in rtr
  {
    DeliveredUpTo(w, h);
    hide W.Inv, W.Numbers;
  }

  // ----- what is asked for is sent again

  function HeldBefore(slots: map<int, Slot>, rtr: seq<int>, k: nat): nat
    requires k <= |rtr|
  {
    if k == 0 then 0 else HeldBefore(slots, rtr, k - 1) + (if rtr[k - 1] in slots then 1 else 0)
  }

  lemma {:induction false} HeldBeforeTail(slots: map<int, Slot>, rtr: seq<int>, k: nat)
    requires 0 < k <= |rtr|
    ensures HeldBefore(slots, rtr, k) == (if rtr[0] in slots then 1 else 0) + HeldBefore(slots, rtr[1..], k - 1)
  {
    if k > 1 {
      HeldBeforeTail(slots, rtr, k - 1);
    }
  }

  /** Every packet asked for that the daemon holds is sent again, once for each time it is asked
      for, in the order asked for, and nothing else is. */
  lemma {:induction false} AnswersExact(slots: map<int, Slot>, rtr: seq<int>)
    ensures |Answers(slots, rtr)| == HeldBefore(slots, rtr, |rtr|)
    ensures forall k :: 0 <= k < |rtr| && rtr[k] in slots ==>
              && HeldBefore(slots, rtr, k) < |Answers(slots, rtr)|
              && Answers(slots, rtr)[HeldBefore(slots, rtr, k)] == slots[rtr[k]].packet
  {
    if rtr != [] {
      AnswersExact(slots, rtr[1..]);
      HeldBeforeTail(slots, rtr, |rtr|);
      forall k | 0 <= k < |rtr| && rtr[k] in slots
        ensures HeldBefore(slots, rtr, k) < |Answers(slots, rtr)|
        ensures Answers(slots, rtr)[HeldBefore(slots, rtr, k)] == slots[rtr[k]].packet
      {
        if k > 0 {
          HeldBeforeTail(slots, rtr, k);
          assert rtr[1..][k - 1] == rtr[k];
        }
      }
    }
  }

  /** On every run: the daemon that gets the token next sends the packets asked for again that it
      holds, exactly these and as they were sent first. */
  lemma RequestsAreAnswered(trace: seq<Sys>, l: Limits, i: nat, p: Packet)
    requires Run(trace, l) && LimitsOk(l) && HarmlessStart(trace[0]) && i < |trace|
    ensures trace[i].Up? && |trace[i].ring| > 0
    ensures
      var s, w := trace[i], trace[i].ring[0].daemon.win;
      && Answerable(w, s.token.rtr)
      && (p in Answers(w.slots, s.token.rtr) <==>
            exists k :: 0 <= k < |s.token.rtr| && s.token.rtr[k] in w.slots && 0 < s.token.rtr[k] <= |s.history|
                        && p == s.history[s.token.rtr[k] - 1])
  {
    RunKeepsInv(trace, l, i);
    var s := trace[i];
    VisitSucceeds(s, Plan(0, 0, 0, 0), false);
    var w := s.ring[0].daemon.win;
    DeliveredUpTo(w, s.history);
    hide Inv, Run, HarmlessStart, W.Inv, W.Numbers;
    AnswersAre(w.slots, s.token.rtr, p);
  }

  lemma {:induction false} AnswersAre(slots: map<int, Slot>, rtr: seq<int>, p: Packet)
    ensures p in Answers(slots, rtr) <==> exists k :: 0 <= k < |rtr| && rtr[k] in slots && p == slots[rtr[k]].packet
  {
    if rtr != [] {
      AnswersAre(slots, rtr[1..], p);
      if exists k :: 0 <= k < |rtr| && rtr[k] in slots && p == slots[rtr[k]].packet {
        var k :| 0 <= k < |rtr| && rtr[k] in slots && p == slots[rtr[k]].packet;
        if k > 0 {
          assert rtr[1..][k - 1] == rtr[k];
        }
      }
      if p in Answers(slots, rtr[1..]) {
        var k :| 0 <= k < |rtr[1..]| && rtr[1..][k] in slots && p == slots[rtr[1..][k]].packet;
        assert rtr[k + 1] == rtr[1..][k];
      }
    }
  }

  // ----- the exits

  /** Discard_packets meets an empty entry. */
  ghost predicate EmptyUpTo(w: Window, q: int) {
    w.lastDiscarded < q <= w.aru && q !in w.slots
  }

  lemma {:induction false} DiscardExitsExactly(w: Window)
    ensures Discard(w).Exit? <==> exists q :: EmptyUpTo(w, q)
    decreases w.aru - w.lastDiscarded
  {
    if w.lastDiscarded < w.aru {
      var next := w.lastDiscarded + 1;
      if next in w.slots {
        var v := DiscardOne(w);
        DiscardExitsExactly(v);
        assert forall q :: EmptyUpTo(v, q) <==> EmptyUpTo(w, q);
      } else {
        assert EmptyUpTo(w, next);
      }
    }
  }

  /** Everything before q that has not been handed up can be. */
  ghost predicate ReachesEmpty(w: Window, q: int) {
    && w.lastDelivered < q <= w.myAru && q !in w.slots
    && forall k :: w.lastDelivered < k < q ==> k in w.slots && (w.slots[k].delivered || !w.slots[k].packet.service.Safe?)
  }

  lemma OneFurther(w: Window, v: Window, q: int)
    requires v.slots.Keys == w.slots.Keys && v.lastDelivered == w.lastDelivered + 1 && v.myAru == w.myAru
    requires forall k :: k in w.slots && k != v.lastDelivered ==> v.slots[k] == w.slots[k]
    requires v.lastDelivered in w.slots
    requires w.slots[v.lastDelivered].delivered || !w.slots[v.lastDelivered].packet.service.Safe?
    ensures ReachesEmpty(v, q) <==> ReachesEmpty(w, q)
  {
    assert forall k :: k in v.slots <==> k in w.slots;
    if ReachesEmpty(v, q) {
      forall k | w.lastDelivered < k < q
        ensures k in w.slots && (w.slots[k].delivered || !w.slots[k].packet.service.Safe?)
      {
        if k != v.lastDelivered {
          assert v.lastDelivered < k && k in v.slots;
        }
      }
    }
    if ReachesEmpty(w, q) {
      assert q != v.lastDelivered;
      forall k | v.lastDelivered < k < q
        ensures k in v.slots && (v.slots[k].delivered || !v.slots[k].packet.service.Safe?)
      {
        assert w.lastDelivered < k && k in w.slots;
      }
    }
  }

  lemma {:induction false} AgreedExitsExactly(w: Window)
    ensures DeliverAgreed(w).Exit? <==> exists q :: ReachesEmpty(w, q)
    decreases w.myAru - w.lastDelivered
  {
    var next := w.lastDelivered + 1;
    if next <= w.myAru {
      if next !in w.slots {
        assert ReachesEmpty(w, next);
      } else if w.slots[next].delivered || !w.slots[next].packet.service.Safe? {
        var v := if w.slots[next].delivered then w.(lastDelivered := next) else DeliverAt(w, next).(lastDelivered := next);
        AgreedExitsExactly(v);
        assert v.slots.Keys == w.slots.Keys && v.lastDelivered == next && v.myAru == w.myAru;
        assert forall k :: k in w.slots && k != next ==> v.slots[k] == w.slots[k];
        hide DeliverAt;
        forall q
          ensures ReachesEmpty(v, q) <==> ReachesEmpty(w, q)
        {
          OneFurther(w, v, q);
        }
      } else {
        forall q
          ensures !ReachesEmpty(w, q)
        {
          assert next < q ==> next in w.slots;
        }
      }
    }
  }

  lemma {:induction false} AppendExitsExactly(w: Window, ps: seq<Packet>)
    ensures AppendAll(w, ps).Exit? <==> exists q :: w.highest < q <= w.highest + |ps| && q in w.slots
    decreases |ps|
  {
    if ps != [] {
      var next := w.highest + 1;
      if next !in w.slots {
        var v := Append(w, ps[0]).value;
        AppendExitsExactly(v, ps[1..]);
        assert forall q :: v.highest < q ==> (q in v.slots <==> q in w.slots);
      }
    }
  }

  /** Up to the departure of the token a daemon exits if and only if it is asked for something below
      its Aru, or has a packet under a number that it is to give to a new one. */
  lemma VisitExitsExactly(w: Window, t: Token, sent: seq<Packet>)
    ensures BeforeToken(w, t, sent).Exit? <==>
              || (exists k :: 0 <= k < |t.rtr| && t.rtr[k] < w.aru)
              || (exists q :: Max(w.highest, t.num) < q <= Max(w.highest, t.num) + |sent| && q in w.slots)
  {
    AppendExitsExactly(CatchUp(w, t.num), sent);
    hide AppendAll, Advance;
  }
}

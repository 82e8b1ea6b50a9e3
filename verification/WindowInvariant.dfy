/** What the buffer of every daemon of a ring keeps, relative to `h`, the packets sent so far:
    packet number q of the membership is h[q - 1]. */
module WindowInvariant {
  import opened Outcomes
  import opened Protocol

  // ----- the order of delivery

  /** The deliveries that take part in the total order. */
  function Ordered(log: seq<Delivery>): seq<Delivery> {
    if log == [] then []
    else
      var e := log[|log| - 1];
      Ordered(log[..|log| - 1]) + (if Early(e.packet) then [] else [e])
  }

  /** The first n packets of the ring, without the early ones. */
  function OrderedPrefix(h: seq<Packet>, n: nat): seq<Delivery>
    requires n <= |h|
  {
    if n == 0 then []
    else OrderedPrefix(h, n - 1) + (if Early(h[n - 1]) then [] else [Delivery(n, h[n - 1])])
  }

  lemma {:induction false} OrderedPrefixExtends(h: seq<Packet>, g: seq<Packet>, n: nat)
    requires n <= |h|
    ensures OrderedPrefix(h + g, n) == OrderedPrefix(h, n)
  {
    if n > 0 {
      OrderedPrefixExtends(h, g, n - 1);
    }
  }

  lemma {:induction false} OrderedPrefixMonotone(h: seq<Packet>, m: nat, n: nat)
    requires m <= n <= |h|
    ensures OrderedPrefix(h, m) <= OrderedPrefix(h, n)
  {
    if m < n {
      OrderedPrefixMonotone(h, m, n - 1);
    }
  }

  function Numbers(log: seq<Delivery>): set<int> {
    if log == [] then {} else Numbers(log[..|log| - 1]) + {log[|log| - 1].num}
  }

  /** Every delivery is of the packet sent under its number, and no number is delivered twice. */
  ghost predicate LogValid(log: seq<Delivery>, h: seq<Packet>) {
    log == [] ||
    var e := log[|log| - 1];
    && LogValid(log[..|log| - 1], h)
    && e.num !in Numbers(log[..|log| - 1])
    && 0 < e.num <= |h| && e.packet == h[e.num - 1]
  }

  lemma LogAppend(log: seq<Delivery>, e: Delivery, h: seq<Packet>)
    ensures Ordered(log + [e]) == Ordered(log) + (if Early(e.packet) then [] else [e])
    ensures Numbers(log + [e]) == Numbers(log) + {e.num}
    ensures LogValid(log + [e], h) <==>
              LogValid(log, h) && e.num !in Numbers(log) && 0 < e.num <= |h| && e.packet == h[e.num - 1]
  {
    assert (log + [e])[..|log|] == log;
  }

  lemma {:induction false} LogValidExtends(log: seq<Delivery>, h: seq<Packet>, g: seq<Packet>)
    requires LogValid(log, h)
    ensures LogValid(log, h + g)
  {
    if log != [] {
      LogValidExtends(log[..|log| - 1], h, g);
    }
  }

  /** The recursive reading agrees with the obvious one. */
  lemma {:induction false} LogValidMeans(log: seq<Delivery>, h: seq<Packet>)
    requires LogValid(log, h)
    ensures forall i :: 0 <= i < |log| ==>
              0 < log[i].num <= |h| && log[i].packet == h[log[i].num - 1] && log[i].num in Numbers(log)
    ensures forall i, j :: 0 <= i < j < |log| ==> log[i].num != log[j].num
    ensures forall q :: q in Numbers(log) ==> exists i :: 0 <= i < |log| && log[i].num == q
  {
    if log != [] {
      var n := |log| - 1;
      LogValidMeans(log[..n], h);
      assert forall i :: 0 <= i < n ==> log[i] == log[..n][i];
    }
  }

  // ----- the invariant

  ghost predicate Bounds(w: Window, h: seq<Packet>) {
    0 <= w.lastDiscarded <= w.lastDelivered <= w.myAru <= w.highest <= |h|
  }

  ghost predicate Held(w: Window) {
    forall q :: w.lastDiscarded < q <= w.myAru ==> q in w.slots
  }

  ghost predicate SlotsOk(w: Window, h: seq<Packet>) {
    forall q :: q in w.slots ==>
      && w.lastDiscarded < q <= w.highest
      && q <= |h| && 0 < q
      && w.slots[q].packet == h[q - 1]
      && (q <= w.lastDelivered ==> w.slots[q].delivered)
      && (w.slots[q].delivered ==> q <= w.lastDelivered || Early(h[q - 1]))
      && (w.slots[q].delivered ==> !h[q - 1].service.Safe?)
  }

  /** Handed up exactly: what was discarded, and what is marked delivered; each of it once. */
  ghost predicate LogOk(w: Window, h: seq<Packet>) {
    && 0 <= w.lastDelivered <= |h|
    && Ordered(w.log) == OrderedPrefix(h, w.lastDelivered)
    && LogValid(w.log, h)
    && HandedUp(w)
  }

  ghost predicate HandedUp(w: Window) {
    forall q :: q in Numbers(w.log) <==>
      0 < q <= w.lastDiscarded || (q in w.slots && w.slots[q].delivered)
  }

  ghost predicate Core(w: Window, h: seq<Packet>) {
    Bounds(w, h) && Held(w) && SlotsOk(w, h) && LogOk(w, h)
  }

  /** My_aru is as large as it can be. */
  ghost predicate Maximal(w: Window) {
    w.myAru + 1 !in w.slots
  }

  /** Nothing but an unstable SAFE packet holds ordered delivery up. */
  ghost predicate Timely(w: Window, h: seq<Packet>) {
    w.lastDelivered < w.myAru ==> 0 <= w.lastDelivered < |h| && h[w.lastDelivered].service.Safe?
  }

  ghost predicate Inv(w: Window, h: seq<Packet>) {
    Core(w, h) && Maximal(w) && Timely(w, h) && w.lastDiscarded == w.aru
  }

  /** Two daemons that differ only in what delivering changes. */
  ghost predicate SameReceived(w: Window, e: Window) {
    && e.highest == w.highest && e.myAru == w.myAru
    && e.aru == w.aru && e.lastDiscarded == w.lastDiscarded
    && e.slots.Keys == w.slots.Keys
    && forall q :: q in w.slots ==> e.slots[q].packet == w.slots[q].packet
  }

  // ----- delivering keeps it

  lemma DeliverAtKeepsLog(w: Window, q: int, h: seq<Packet>, upTo: int)
    requires Core(w, h) && q in w.slots && !w.slots[q].delivered
    requires (upTo == w.lastDelivered && Early(w.slots[q].packet)) || upTo == q == w.lastDelivered + 1
    ensures LogOk(DeliverAt(w, q).(lastDelivered := upTo), h)
  {
    LogAppend(w.log, Delivery(q, w.slots[q].packet), h);
    assert q !in Numbers(w.log);
  }

  lemma DeliverInOrder(w: Window, h: seq<Packet>)
    requires Core(w, h) && w.lastDelivered < w.myAru
    requires !w.slots[w.lastDelivered + 1].delivered
    requires !w.slots[w.lastDelivered + 1].packet.service.Safe?
    ensures Core(DeliverAt(w, w.lastDelivered + 1).(lastDelivered := w.lastDelivered + 1), h)
  {
    DeliverAtKeepsLog(w, w.lastDelivered + 1, h, w.lastDelivered + 1);
  }

  lemma DeliverEarlyOne(w: Window, q: int, h: seq<Packet>)
    requires Core(w, h) && q in w.slots && !w.slots[q].delivered && Early(w.slots[q].packet)
    ensures Core(DeliverAt(w, q), h)
  {
    DeliverAtKeepsLog(w, q, h, w.lastDelivered);
    assert DeliverAt(w, q) == DeliverAt(w, q).(lastDelivered := w.lastDelivered);
  }

  lemma SkipDelivered(w: Window, h: seq<Packet>)
    requires Core(w, h) && w.lastDelivered < w.myAru
    requires w.slots[w.lastDelivered + 1].delivered
    ensures Core(w.(lastDelivered := w.lastDelivered + 1), h)
  {
  }

  lemma SameReceivedTrans(w: Window, w1: Window, w2: Window)
    requires SameReceived(w, w1) && SameReceived(w1, w2)
    ensures SameReceived(w, w2)
  {
  }

  lemma {:induction false} AgreedKeeps(w: Window, h: seq<Packet>)
    requires Core(w, h)
    ensures DeliverAgreed(w).Go?
    ensures var e := DeliverAgreed(w).value;
            Core(e, h) && Timely(e, h) && SameReceived(w, e) && w.lastDelivered <= e.lastDelivered
    decreases w.myAru - w.lastDelivered, 1
  {
    if w.lastDelivered < w.myAru {
      var q := w.lastDelivered + 1;
      assert q in w.slots && w.slots[q].packet == h[q - 1];
      if w.slots[q].delivered {
        SkipDelivered(w, h);
        AgreedAfter(w, w.(lastDelivered := q), h);
      } else if !w.slots[q].packet.service.Safe? {
        DeliverInOrder(w, h);
        AgreedAfter(w, DeliverAt(w, q).(lastDelivered := q), h);
      }
    }
  }

  lemma {:induction false} AgreedAfter(w: Window, w1: Window, h: seq<Packet>)
    requires Core(w1, h) && SameReceived(w, w1) && w1.lastDelivered == w.lastDelivered + 1 <= w.myAru
    requires DeliverAgreed(w) == DeliverAgreed(w1)
    ensures DeliverAgreed(w).Go?
    ensures var e := DeliverAgreed(w).value;
            Core(e, h) && Timely(e, h) && SameReceived(w, e) && w.lastDelivered <= e.lastDelivered
    decreases w.myAru - w.lastDelivered, 0
  {
    assert w1.myAru == w.myAru;
    hide Core, SameReceived, DeliverAgreed;
    AgreedKeeps(w1, h);
    SameReceivedTrans(w, w1, DeliverAgreed(w1).value);
  }

  lemma {:induction false} EarlyKeeps(w: Window, q: int, last: int, h: seq<Packet>)
    requires Core(w, h)
    ensures var e := DeliverEarly(w, q, last);
            Core(e, h) && SameReceived(w, e) && e.lastDelivered == w.lastDelivered
    decreases last - q
  {
    if q <= last {
      hide Core, SameReceived;
      if q in w.slots && !w.slots[q].delivered && Early(w.slots[q].packet) {
        DeliverEarlyOne(w, q, h);
        EarlyKeeps(DeliverAt(w, q), q + 1, last, h);
        DeliverAtSame(w, q);
        SameReceivedTrans(w, DeliverAt(w, q), DeliverEarly(w, q, last));
      } else {
        EarlyKeeps(w, q + 1, last, h);
      }
    } else {
      assert SameReceived(w, w);
    }
  }

  lemma DeliverAtSame(w: Window, q: int)
    requires q in w.slots
    ensures SameReceived(w, DeliverAt(w, q))
  {
  }

  // ----- discarding keeps it

  /** Dropping a delivered packet does not change what has been handed up. */
  lemma DropKeepsLog(w: Window, h: seq<Packet>)
    requires 0 <= w.lastDiscarded < w.lastDelivered <= |h| && LogOk(w, h)
    requires w.lastDiscarded + 1 in w.slots && w.slots[w.lastDiscarded + 1].delivered
    ensures LogOk(w.(slots := w.slots - {w.lastDiscarded + 1}, lastDiscarded := w.lastDiscarded + 1), h)
  {
  }

  lemma DiscardOneLog(w: Window, h: seq<Packet>)
    requires Core(w, h) && w.lastDiscarded < w.myAru
    ensures LogOk(DiscardOne(w), h)
  {
    var q := w.lastDiscarded + 1;
    if w.slots[q].delivered {
      if w.lastDelivered < q {
        SkipDelivered(w, h);
        DropKeepsLog(w.(lastDelivered := q), h);
      } else {
        DropKeepsLog(w, h);
        assert DiscardOne(w) == w.(slots := w.slots - {q}, lastDiscarded := q);
      }
    } else {
      DeliverAtKeepsLog(w, q, h, q);
      DropKeepsLog(DeliverAt(w, q).(lastDelivered := q), h);
    }
  }

  lemma DiscardOneKeeps(w: Window, h: seq<Packet>)
    requires Core(w, h) && w.lastDiscarded < w.myAru
    ensures Core(DiscardOne(w), h)
  {
    DiscardOneLog(w, h);
    var q, e := w.lastDiscarded + 1, DiscardOne(w);
    assert e.slots.Keys == w.slots.Keys - {q};
    assert forall r :: r in e.slots ==> e.slots[r] == w.slots[r];
  }

  lemma {:induction false} DiscardKeeps(w: Window, h: seq<Packet>)
    requires Core(w, h) && w.aru <= w.myAru
    ensures Discard(w).Go?
    ensures var e := Discard(w).value;
            && Core(e, h)
            && e == w.(slots := e.slots, lastDelivered := e.lastDelivered, log := e.log, lastDiscarded := e.lastDiscarded)
            && e.lastDiscarded == Max(w.aru, w.lastDiscarded)
            && w.lastDelivered <= e.lastDelivered
            && e.slots.Keys <= w.slots.Keys
            && forall q :: q in w.slots && q > e.lastDiscarded ==> q in e.slots && e.slots[q] == w.slots[q]
    decreases w.aru - w.lastDiscarded
  {
    if w.lastDiscarded < w.aru {
      DiscardOneKeeps(w, h);
      hide SlotsOk, LogOk;
      DiscardKeeps(DiscardOne(w), h);
    }
  }

  // ----- receiving a packet keeps it

  /** The buffer once packet q has been put into it. */
  function Inserted(w: Window, q: int, p: Packet): Window {
    w.(slots := w.slots[q := Slot(p, false)], highest := Max(w.highest, q))
  }

  lemma InsertKeeps(w: Window, q: int, h: seq<Packet>)
    requires Core(w, h) && w.lastDiscarded < q <= |h| && q !in w.slots
    ensures Core(Inserted(w, q, h[q - 1]), h)
  {
    assert q > w.myAru;
  }

  lemma AdvanceKeeps(w: Window, h: seq<Packet>)
    requires Core(w, h)
    ensures var e := w.(myAru := Advance(w.slots, w.myAru, w.highest)); Core(e, h) && Maximal(e)
  {
    var r := Advance(w.slots, w.myAru, w.highest);
    if r == w.highest {
      assert r + 1 !in w.slots;
    }
  }

  /** What a packet can change: it keeps everything the daemon had. */
  ghost predicate Grown(w: Window, e: Window) {
    && e.aru == w.aru && e.lastDiscarded == w.lastDiscarded
    && w.highest <= e.highest && w.myAru <= e.myAru && w.lastDelivered <= e.lastDelivered
    && w.slots.Keys <= e.slots.Keys
    && forall q :: q in w.slots ==> e.slots[q].packet == w.slots[q].packet
  }

  lemma CatchUpAndDeliver(w: Window, h: seq<Packet>)
    requires Core(w, h) && w.lastDiscarded == w.aru
    ensures var f := w.(myAru := Advance(w.slots, w.myAru, w.highest));
            && DeliverAgreed(f).Go?
            && Inv(DeliverAgreed(f).value, h)
            && Grown(w, DeliverAgreed(f).value)
            && DeliverAgreed(f).value.slots.Keys == w.slots.Keys
  {
    hide Core, DeliverAgreed, Advance;
    AdvanceKeeps(w, h);
    AgreedKeeps(w.(myAru := Advance(w.slots, w.myAru, w.highest)), h);
  }

  lemma InOrderPacketKeepsInv(w: Window, q: int, h: seq<Packet>)
    requires Inv(w, h) && q == w.myAru + 1 <= |h| && q !in w.slots
    ensures HandlePacket(w, q, h[q - 1]).Go?
    ensures var e := HandlePacket(w, q, h[q - 1]).value;
            Inv(e, h) && Grown(w, e) && e.slots.Keys == w.slots.Keys + {q}
  {
    InsertKeeps(w, q, h);
    var e := Inserted(w, q, h[q - 1]);
    CatchUpAndDeliver(e, h);
    assert w.aru < q;
    assert HandlePacket(w, q, h[q - 1]) == DeliverAgreed(e.(myAru := Advance(e.slots, w.myAru, e.highest)));
  }

  lemma OutOfOrderPacketKeepsInv(w: Window, q: int, h: seq<Packet>)
    requires Inv(w, h) && w.aru < q <= |h| && q != w.myAru + 1 && q !in w.slots
    ensures HandlePacket(w, q, h[q - 1]).Go?
    ensures var e := HandlePacket(w, q, h[q - 1]).value;
            Inv(e, h) && Grown(w, e) && e.slots.Keys == w.slots.Keys + {q}
  {
    InsertKeeps(w, q, h);
    var e := Inserted(w, q, h[q - 1]);
    hide Core, DeliverEarly;
    EarlyKeeps(e, Max(q, e.lastDelivered + 1), q, h);
  }

  /** A packet, new or stale, never makes the daemon exit; it keeps everything it had, it holds
      the new packet (unless that is stable already) and its My_aru does not go back. */
  lemma PacketKeepsInv(w: Window, q: int, h: seq<Packet>)
    requires Inv(w, h) && 0 < q <= |h|
    ensures HandlePacket(w, q, h[q - 1]).Go?
    ensures var e := HandlePacket(w, q, h[q - 1]).value;
            Inv(e, h) && Grown(w, e) && (q <= e.aru || e.slots.Keys == w.slots.Keys + {q})
  {
    if q > w.aru && q !in w.slots {
      if q == w.myAru + 1 {
        InOrderPacketKeepsInv(w, q, h);
      } else {
        OutOfOrderPacketKeepsInv(w, q, h);
      }
    } else if q in w.slots {
      assert w.slots.Keys == w.slots.Keys + {q};
    }
  }

  // ----- appending packets of our own

  lemma CoreExtends(w: Window, h: seq<Packet>, g: seq<Packet>)
    requires Core(w, h)
    ensures Core(w, h + g)
  {
    OrderedPrefixExtends(h, g, w.lastDelivered);
    LogValidExtends(w.log, h, g);
  }

  lemma InvExtends(w: Window, h: seq<Packet>, g: seq<Packet>)
    requires Inv(w, h)
    ensures Inv(w, h + g)
  {
    CoreExtends(w, h, g);
  }

  lemma {:induction false} AppendAllKeeps(w: Window, h: seq<Packet>, ps: seq<Packet>)
    requires Core(w, h) && w.highest == |h|
    ensures AppendAll(w, ps).Go?
    ensures var e := AppendAll(w, ps).value;
            && Core(e, h + ps)
            && e.highest == |h + ps|
            && e == w.(slots := e.slots, highest := e.highest)
            && forall q :: q in w.slots ==> q in e.slots && e.slots[q] == w.slots[q]
    decreases |ps|
  {
    if ps == [] {
      assert h + [] == h;
    } else {
      var g := h + [ps[0]];
      CoreExtends(w, h, [ps[0]]);
      InsertKeeps(w, |h| + 1, g);
      assert |h| + 1 !in w.slots;
      hide Core;
      AppendAllKeeps(Append(w, ps[0]).value, g, ps[1..]);
      assert g + ps[1..] == h + ps;
    }
  }

  // ----- the token

  /** Up to the moment the token leaves nothing exits, and the packets sent get the next numbers.
      A daemon that had everything still does, its own packets included. */
  lemma BeforeTokenKeeps(w: Window, t: Token, sent: seq<Packet>, h: seq<Packet>)
    requires Inv(w, h) && t.num == |h| && Answerable(w, t.rtr)
    ensures BeforeToken(w, t, sent).Go?
    ensures var e := BeforeToken(w, t, sent).value;
            && Core(e, h + sent) && Maximal(e)
            && e.highest == |h + sent|
            && w.myAru <= e.myAru
            && (w.myAru == |h| ==> e.myAru == |h + sent|)
            && (sent == [] ==> e.myAru == w.myAru)
            && (e.aru, e.lastDiscarded, e.lastDelivered, e.log) == (w.aru, w.lastDiscarded, w.lastDelivered, w.log)
            && forall q :: q in w.slots ==> q in e.slots && e.slots[q] == w.slots[q]
  {
    var w0 := CatchUp(w, t.num);
    assert Core(w0, h);
    AppendAllKeeps(w0, h, sent);
    AppendedHeld(w0, sent);
    AdvanceKeeps(AppendAll(w0, sent).value, h + sent);
  }

  lemma {:induction false} AppendedHeld(w: Window, ps: seq<Packet>)
    requires AppendAll(w, ps).Go?
    ensures var e := AppendAll(w, ps).value;
            && e.highest == w.highest + |ps|
            && (forall q :: w.highest < q <= e.highest ==> q in e.slots)
            && w.slots.Keys <= e.slots.Keys
    decreases |ps|
  {
    if ps != [] {
      AppendedHeld(Append(w, ps[0]).value, ps[1..]);
    }
  }

  /** A daemon asks for exactly the packets it misses among those it looks at. */
  lemma {:induction false} MissingExact(slots: map<int, Slot>, from: int, last: int, q: int)
    ensures q in Missing(slots, from, last) <==> from <= q <= last && q !in slots
    decreases last - from
  {
    if from <= last {
      MissingExact(slots, from + 1, last, q);
    }
  }

  lemma MissingStep(slots: map<int, Slot>, i: int, last: int, found: seq<int>)
    requires i <= last
    ensures found + Missing(slots, i, last) == (if i in slots then found else found + [i]) + Missing(slots, i + 1, last)
  {
  }

  lemma MissingDone(slots: map<int, Slot>, i: int, last: int)
    requires last < i
    ensures Missing(slots, i, last) == []
  {
  }

  lemma {:induction false} AnswersAppend(slots: map<int, Slot>, rtr: seq<int>, q: int)
    ensures Answers(slots, rtr + [q]) == Answers(slots, rtr) + (if q in slots then [slots[q].packet] else [])
  {
    if rtr == [] {
      assert [q][1..] == [];
    } else {
      assert (rtr + [q])[1..] == rtr[1..] + [q];
      AnswersAppend(slots, rtr[1..], q);
    }
  }

  lemma DiscardToAru(w: Window, h: seq<Packet>)
    requires Core(w, h) && Maximal(w) && w.lastDiscarded <= w.aru <= w.myAru
    ensures Discard(w).Go?
    ensures var e := Discard(w).value;
            && Core(e, h) && Maximal(e)
            && e.lastDiscarded == e.aru == w.aru && e.highest == w.highest && e.myAru == w.myAru
            && w.lastDelivered <= e.lastDelivered
  {
    hide Core, Discard;
    DiscardKeeps(w, h);
  }

  /** Delivery as far as it goes, then the early packets among the newest. */
  lemma DeliverBothKeeps(w: Window, first: int, count: int, h: seq<Packet>)
    requires Core(w, h) && Maximal(w) && w.lastDiscarded == w.aru
    ensures DeliverAgreed(w).Go?
    ensures var e := DeliverReliable(DeliverAgreed(w).value, first, count);
            && Inv(e, h)
            && e.aru == w.aru && e.highest == w.highest && e.myAru == w.myAru
            && w.lastDelivered <= e.lastDelivered
  {
    hide Core, DeliverEarly, DeliverAgreed;
    AgreedKeeps(w, h);
    var w2 := DeliverAgreed(w).value;
    EarlyKeeps(w2, Max(first, w2.lastDelivered + 1), first + count - 1, h);
  }

  lemma SetAruKeeps(w: Window, aru: int, h: seq<Packet>)
    requires Core(w, h)
    ensures Core(w.(aru := aru), h)
  {
  }

  /** After the token has left: delivery and discarding never exit, provided the new Aru is
      something this daemon has received and does not go back. */
  lemma AfterTokenKeeps(w: Window, tokenAru: int, prevAru: int, datagrams: nat, h: seq<Packet>)
    requires Core(w, h) && Maximal(w)
    requires w.lastDiscarded <= (if tokenAru > prevAru then prevAru else tokenAru) <= w.myAru
    ensures AfterToken(w, tokenAru, prevAru, datagrams).Go?
    ensures var e := AfterToken(w, tokenAru, prevAru, datagrams).value;
            && Inv(e, h)
            && e.aru == (if tokenAru > prevAru then prevAru else tokenAru)
            && w.lastDelivered <= e.lastDelivered
            && e.highest == w.highest && e.myAru == w.myAru
  {
    var w0 := w.(aru := if tokenAru > prevAru then prevAru else tokenAru);
    hide Core, Discard, DeliverAgreed, DeliverReliable, Inv;
    SetAruKeeps(w, w0.aru, h);
    DiscardToAru(w0, h);
    var w1 := Discard(w0).value;
    AgreedKeeps(w1, h);
    DeliverBothKeeps(w1, w1.highest - datagrams + 1, datagrams, h);
  }
}

/** The daemon as the program keeps it: variables and the fixed array Packets[], changed in place
    by loops. Every method is proved equal to the function of Protocol that specifies it. */
module RingDaemon {
  import opened Outcomes
  import opened Protocol
  import R = Ring
  import W = WindowInvariant

  datatype Entry = Empty | Full(slot: Slot)

  // ----- the array as a map

  /** Packet q, discarded < q <= discarded + 8192, is in the entry q & PACKET_MASK. */
  ghost function Slots(entries: seq<Entry>, discarded: int): map<int, Slot>
    requires |entries| == MAX_PACKETS_IN_STRUCT
  {
    map q | discarded < q <= discarded + MAX_PACKETS_IN_STRUCT && entries[EntryOf(q)].Full? ::
      entries[EntryOf(q)].slot
  }

  lemma EntriesDiffer(discarded: int, q: int, r: int)
    requires discarded < q <= discarded + MAX_PACKETS_IN_STRUCT && discarded < r <= discarded + MAX_PACKETS_IN_STRUCT
    requires EntryOf(q) == EntryOf(r)
    ensures q == r
  {
  }

  lemma SlotsSet(entries: seq<Entry>, discarded: int, q: int, s: Slot)
    requires |entries| == MAX_PACKETS_IN_STRUCT
    requires discarded < q <= discarded + MAX_PACKETS_IN_STRUCT
    ensures Slots(entries[EntryOf(q) := Full(s)], discarded) == Slots(entries, discarded)[q := s]
  {
    var after := entries[EntryOf(q) := Full(s)];
    forall r | discarded < r <= discarded + MAX_PACKETS_IN_STRUCT && r != q
      ensures after[EntryOf(r)] == entries[EntryOf(r)]
    {
      if EntryOf(r) == EntryOf(q) {
        EntriesDiffer(discarded, q, r);
      }
    }
  }

  /** Discarding frees exactly the entry that the next number after the window will use. */
  lemma SlotsClear(entries: seq<Entry>, discarded: int)
    requires |entries| == MAX_PACKETS_IN_STRUCT
    ensures Slots(entries[EntryOf(discarded + 1) := Empty], discarded + 1)
            == Slots(entries, discarded) - {discarded + 1}
  {
    var q := discarded + 1;
    var after := entries[EntryOf(q) := Empty];
    forall r | discarded < r <= discarded + MAX_PACKETS_IN_STRUCT && r != q
      ensures after[EntryOf(r)] == entries[EntryOf(r)]
    {
      if EntryOf(r) == EntryOf(q) {
        EntriesDiffer(discarded, q, r);
      }
    }
    assert EntryOf(q + MAX_PACKETS_IN_STRUCT) == EntryOf(q);
  }

  /** Looking an entry up is looking its number up. */
  lemma SlotsAt(entries: seq<Entry>, discarded: int, q: int)
    requires |entries| == MAX_PACKETS_IN_STRUCT
    requires discarded < q <= discarded + MAX_PACKETS_IN_STRUCT
    ensures q in Slots(entries, discarded) <==> entries[EntryOf(q)].Full?
    ensures q in Slots(entries, discarded) ==> Slots(entries, discarded)[q] == entries[EntryOf(q)].slot
  {
  }

  // ----- what the array needs

  /** Everything in use lies in the 8192 numbers after the last discarded packet. */
  ghost predicate WindowFits(w: Window) {
    && w.lastDiscarded <= w.lastDelivered
    && w.lastDiscarded <= w.myAru <= w.highest <= w.lastDiscarded + MAX_PACKETS_IN_STRUCT
  }

  ghost predicate PacketFits(w: Window, q: int) {
    WindowFits(w) && w.lastDiscarded <= w.aru && q <= w.lastDiscarded + MAX_PACKETS_IN_STRUCT
  }

  ghost predicate RequestsFit(w: Window, rtr: seq<int>) {
    forall k :: 0 <= k < |rtr| && w.aru <= rtr[k] ==>
      w.lastDiscarded < rtr[k] <= w.lastDiscarded + MAX_PACKETS_IN_STRUCT
  }

  ghost predicate TokenFits(d: Protocol.Daemon, t: Token, plan: Plan) {
    && QueueOk(d.queue) && WindowFits(d.win) && RequestsFit(d.win, t.rtr)
    && Max(d.win.highest, t.num) + |TakePackets(d.id, d.queue, plan.count).0| <= d.win.lastDiscarded + MAX_PACKETS_IN_STRUCT
  }

  /** On a run from a harmless start the array always suffices: whatever packet or token arrives
      next, every daemon can handle it. */
  lemma ArraySuffices(trace: seq<R.Sys>, l: R.Limits, i: nat, a: nat, q: int, plan: Plan, hurried: bool)
    requires R.Run(trace, l) && R.LimitsOk(l) && R.HarmlessStart(trace[0]) && i < |trace|
    requires trace[i].Up? && a < |trace[i].ring| && 0 < q <= |trace[i].history|
    requires R.Enabled(trace[i], R.PassToken(plan, hurried), l)
    ensures PacketFits(trace[i].ring[a].daemon.win, q)
    ensures TokenFits(trace[i].ring[0].daemon, R.Copy(trace[i].token, hurried), plan)
  {
    R.RunKeepsInv(trace, l, i);
    var s := trace[i];
    hide R.A.Inv, R.ArqOk, R.FlowSum, W.LogOk, W.SlotsOk, R.Run;
    assert R.MemberOk(s.ring[a], s.history);
    assert R.MemberOk(s.ring[0], s.history);
    assert s.token.num <= s.ring[a].daemon.win.aru + MAX_PACKETS_IN_STRUCT;
    assert s.token.num <= s.ring[0].daemon.win.aru + MAX_PACKETS_IN_STRUCT;
  }

  ghost function TakeMore(sent: seq<Packet>, id: int, q: Queue, count: nat): (seq<Packet>, Queue)
    requires QueueOk(q)
  {
    var (ps, q1) := TakePackets(id, q, count);
    (sent + ps, q1)
  }

  lemma TakeStart(id: int, q: Queue, count: nat)
    requires QueueOk(q)
    ensures TakeMore([], id, q, count) == TakePackets(id, q, count)
  {
    assert [] + TakePackets(id, q, count).0 == TakePackets(id, q, count).0;
  }

  lemma TakeStep(sent: seq<Packet>, id: int, q: Queue, count: nat)
    requires QueueOk(q) && q.messages != [] && count > 0
    ensures
      var (p, q1) := NextPacket(id, q);
      && TakeMore(sent, id, q, count) == TakeMore(sent + [p], id, q1, count - 1)
      && TakePackets(id, q, count).0 == [p] + TakePackets(id, q1, count - 1).0
  {
    var (p, q1) := NextPacket(id, q);
    assert sent + ([p] + TakePackets(id, q1, count - 1).0) == (sent + [p]) + TakePackets(id, q1, count - 1).0;
  }

  lemma TakeDone(sent: seq<Packet>, id: int, q: Queue, count: nat)
    requires QueueOk(q) && (q.messages == [] || count == 0)
    ensures TakeMore(sent, id, q, count) == (sent, q) && TakePackets(id, q, count).0 == []
  {
    assert sent + [] == sent;
  }

  lemma AppendStep(w: Window, ps: seq<Packet>)
    ensures ps != [] ==>
              && (Append(w, ps[0]).Exit? ==> AppendAll(w, ps).Exit?)
              && (Append(w, ps[0]).Go? ==> AppendAll(w, ps) == AppendAll(Append(w, ps[0]).value, ps[1..]))
  {
  }

  lemma AppendDone(w: Window)
    ensures AppendAll(w, []) == Outcome<Window>.Go(w)
  {
  }

  // ----- the daemon

  class Daemon {
    const id: int
    const leader: bool
    const packets: array<Entry>
    var highest: int
    var myAru: int
    var aru: int
    var lastDiscarded: int
    var lastDelivered: int
    var log: seq<Delivery>
    var mark: int
    var prevAru: int
    var prevArq: int
    var lastRetrans: int
    var lastSent: int
    var messages: seq<Message>
    var cur: nat

    ghost function View(): Window
      reads this, packets
      requires packets.Length == MAX_PACKETS_IN_STRUCT
    {
      Window(Slots(packets[..], lastDiscarded), highest, myAru, aru, lastDiscarded, lastDelivered, log)
    }

    ghost function State(): Protocol.Daemon
      reads this, packets
      requires packets.Length == MAX_PACKETS_IN_STRUCT
    {
      Protocol.Daemon(id, View(), mark, prevAru, prevArq, lastRetrans, lastSent, Queue(messages, cur))
    }

    ghost predicate Fits()
      reads this, packets
    {
      packets.Length == MAX_PACKETS_IN_STRUCT && WindowFits(View())
    }

    constructor (id: int, leader: bool, arq: int)
      ensures Fits() && fresh(packets)
      ensures State() == Protocol.Daemon(id, R.EMPTY_WINDOW, -1, 0, arq, 0, 0, Queue([], 0))
      ensures this.leader == leader
    {
      this.id, this.leader := id, leader;
      packets := new Entry[MAX_PACKETS_IN_STRUCT](_ => Empty);
      highest, myAru, aru, lastDiscarded, lastDelivered, log := 0, 0, 0, 0, 0, [];
      mark, prevAru, prevArq, lastRetrans, lastSent := -1, 0, arq, 0, 0;
      messages, cur := [], 0;
      new;
      assert Slots(packets[..], 0) == map[];
    }

    /** Deliver_packet, then exist = 2. */
    method DeliverPacket(q: int)
      requires Fits() && lastDiscarded < q <= lastDiscarded + MAX_PACKETS_IN_STRUCT && q in View().slots
      modifies packets, `log
      ensures View() == DeliverAt(old(View()), q)
    {
      var e := EntryOf(q);
      SlotsAt(packets[..], lastDiscarded, q);
      SlotsSet(packets[..], lastDiscarded, q, Slot(packets[e].slot.packet, true));
      log := log + [Delivery(q, packets[e].slot.packet)];
      packets[e] := Full(Slot(packets[e].slot.packet, true));
      assert packets[..] == old(packets[..])[e := Full(Slot(old(packets[e]).slot.packet, true))];
    }

    method DeliverAgreedPackets() returns (ok: bool)
      requires Fits()
      modifies packets, `log, `lastDelivered
      ensures ok <==> DeliverAgreed(old(View())).Go?
      ensures ok ==> View() == DeliverAgreed(old(View())).value && Fits()
    {
      ghost var spec := DeliverAgreed(View());
      while lastDelivered < myAru
        invariant lastDiscarded <= lastDelivered
        invariant DeliverAgreed(View()) == spec
        decreases myAru - lastDelivered
      {
        var q := lastDelivered + 1;
        SlotsAt(packets[..], lastDiscarded, q);
        var x := packets[EntryOf(q)];
        if x.Empty? {
          return false;
        }
        if !x.slot.delivered {
          if x.slot.packet.service.Safe? {
            return true;
          }
          DeliverPacket(q);
        }
        lastDelivered := lastDelivered + 1;
      }
      return true;
    }

    method DeliverReliablePackets(first: int, count: int)
      requires Fits() && first + count - 1 <= lastDiscarded + MAX_PACKETS_IN_STRUCT
      modifies packets, `log
      ensures View() == DeliverReliable(old(View()), first, count)
    {
      var end := first + count - 1;
      var i := if first <= lastDelivered then lastDelivered + 1 else first;
      ghost var spec := DeliverEarly(View(), i, end);
      while i <= end
        invariant lastDelivered < i
        invariant DeliverEarly(View(), i, end) == spec
        decreases end - i
      {
        SlotsAt(packets[..], lastDiscarded, i);
        var x := packets[EntryOf(i)];
        if x.Full? && !x.slot.delivered && Early(x.slot.packet) {
          DeliverPacket(i);
        }
        i := i + 1;
      }
    }

    method DiscardPackets() returns (ok: bool)
      requires Fits() && aru <= myAru
      modifies packets, `log, `lastDiscarded, `lastDelivered
      ensures ok <==> Discard(old(View())).Go?
      ensures ok ==> View() == Discard(old(View())).value
      ensures ok ==> Fits()
    {
      ghost var spec := Discard(View());
      while lastDiscarded < aru
        invariant old(lastDiscarded) <= lastDiscarded <= lastDelivered
        invariant Discard(View()) == spec
        invariant lastDiscarded <= myAru <= highest <= lastDiscarded + MAX_PACKETS_IN_STRUCT
        decreases aru - lastDiscarded
      {
        ok := DiscardNext();
        if !ok {
          return;
        }
      }
      return true;
    }

    method DiscardNext() returns (ok: bool)
      requires packets.Length == MAX_PACKETS_IN_STRUCT && lastDiscarded <= lastDelivered
      modifies packets, `log, `lastDiscarded, `lastDelivered
      ensures ok <==> old(lastDiscarded) + 1 in old(View()).slots
      ensures ok ==> View() == DiscardOne(old(View()))
      ensures ok ==> lastDiscarded <= lastDelivered
    {
      hide Slots, EntryOf;
      var q := lastDiscarded + 1;
      var e := EntryOf(q);
      SlotsAt(packets[..], lastDiscarded, q);
      if packets[e].Empty? {
        return false;
      }
      if !packets[e].slot.delivered {
        log := log + [Delivery(q, packets[e].slot.packet)];
      }
      SlotsClear(packets[..], lastDiscarded);
      packets[e] := Empty;
      assert packets[..] == old(packets[..])[e := Empty];
      lastDiscarded := q;
      if lastDelivered < lastDiscarded {
        lastDelivered := lastDiscarded;
      }
      return true;
    }

    /** My_aru moves over the packets that are there. */
    method AdvanceMyAru()
      requires Fits()
      modifies `myAru
      ensures View() == old(View()).(myAru := Advance(old(View()).slots, old(myAru), highest))
    {
      hide Slots;
      ghost var w := View();
      while myAru < highest && packets[EntryOf(myAru + 1)].Full?
        invariant lastDiscarded <= myAru <= highest
        invariant View() == w.(myAru := myAru)
        invariant Advance(w.slots, myAru, highest) == Advance(w.slots, w.myAru, highest)
        decreases highest - myAru
      {
        SlotsAt(packets[..], lastDiscarded, myAru + 1);
        assert myAru + 1 in w.slots;
        myAru := myAru + 1;
      }
      if myAru < highest {
        SlotsAt(packets[..], lastDiscarded, myAru + 1);
        assert myAru + 1 !in w.slots;
      }
    }

    /** Prot_handle_bcast for one packet. */
    method HandlePacket(q: int, p: Packet) returns (ok: bool)
      requires packets.Length == MAX_PACKETS_IN_STRUCT && PacketFits(View(), q)
      modifies packets, `log, `highest, `myAru, `lastDelivered
      ensures ok <==> Protocol.HandlePacket(old(View()), q, p).Go?
      ensures ok ==> View() == Protocol.HandlePacket(old(View()), q, p).value
    {
      if q <= aru {
        return true;
      }
      var e := EntryOf(q);
      SlotsAt(packets[..], lastDiscarded, q);
      if packets[e].Full? {
        return true;
      }
      SlotsSet(packets[..], lastDiscarded, q, Slot(p, false));
      packets[e] := Full(Slot(p, false));
      assert packets[..] == old(packets[..])[e := Full(Slot(p, false))];
      if highest < q {
        highest := q;
      }
      if q == myAru + 1 {
        AdvanceMyAru();
        ok := DeliverAgreedPackets();
      } else {
        DeliverReliablePackets(q, 1);
        ok := true;
      }
    }

    /** Take the next packet of the down queue. */
    method TakeNext() returns (p: Packet)
      requires QueueOk(Queue(messages, cur)) && messages != []
      modifies `messages, `cur
      ensures QueueOk(Queue(messages, cur))
      ensures (p, Queue(messages, cur)) == NextPacket(id, old(Queue(messages, cur)))
    {
      var m := messages[0];
      var body := m.parts[cur];
      cur := cur + 1;
      if cur < |m.parts| {
        p := Packet(id, m.service, cur, body);
      } else {
        p := Packet(id, m.service, -|m.parts|, body);
        messages := messages[1..];
        cur := 0;
      }
    }

    /** Send_new_packets. */
    method SendNewPackets(count: nat) returns (ok: bool, sent: seq<Packet>)
      requires Fits() && QueueOk(Queue(messages, cur))
      requires highest + |TakePackets(id, Queue(messages, cur), count).0| <= lastDiscarded + MAX_PACKETS_IN_STRUCT
      modifies packets, `highest, `messages, `cur
      ensures ok <==> AppendAll(old(View()), TakePackets(id, old(Queue(messages, cur)), count).0).Go?
      ensures ok ==> (sent, Queue(messages, cur)) == TakePackets(id, old(Queue(messages, cur)), count)
      ensures ok ==> View() == AppendAll(old(View()), sent).value && Fits()
    {
      hide TakePackets, AppendAll, NextPacket, Append, Slots;
      sent := [];
      var left := count;
      ghost var all := TakePackets(id, Queue(messages, cur), count);
      ghost var spec := AppendAll(View(), all.0);
      TakeStart(id, Queue(messages, cur), count);
      while left > 0 && messages != []
        invariant QueueOk(Queue(messages, cur)) && Fits()
        invariant all == TakeMore(sent, id, Queue(messages, cur), left)
        invariant highest + |TakePackets(id, Queue(messages, cur), left).0| <= lastDiscarded + MAX_PACKETS_IN_STRUCT
        invariant AppendAll(View(), TakePackets(id, Queue(messages, cur), left).0) == spec
        decreases left
      {
        TakeStep(sent, id, Queue(messages, cur), left);
        AppendStep(View(), TakePackets(id, Queue(messages, cur), left).0);
        var p := TakeNext();
        ok := AppendPacket(p);
        if !ok {
          return false, sent;
        }
        sent := sent + [p];
        left := left - 1;
      }
      TakeDone(sent, id, Queue(messages, cur), left);
      AppendDone(View());
      ok := true;
    }

    method AppendPacket(p: Packet) returns (ok: bool)
      requires Fits() && highest + 1 <= lastDiscarded + MAX_PACKETS_IN_STRUCT
      modifies packets, `highest
      ensures ok <==> Append(old(View()), p).Go?
      ensures ok ==> View() == Append(old(View()), p).value && Fits()
      ensures highest == old(highest) + 1
    {
      highest := highest + 1;
      var e := EntryOf(highest);
      SlotsAt(packets[..], lastDiscarded, highest);
      if packets[e].Full? {
        return false;
      }
      SlotsSet(packets[..], lastDiscarded, highest, Slot(p, false));
      packets[e] := Full(Slot(p, false));
      assert packets[..] == old(packets[..])[e := Full(Slot(p, false))];
      return true;
    }

    /** The retransmission requests that go onto the token: what is missing among the next `room`
        numbers after My_aru. */
    method RequestMissing(room: nat) returns (rtr: seq<int>)
      requires Fits()
      ensures rtr == Missing(View().slots, myAru + 1, if highest < myAru + room then highest else myAru + room)
    {
      hide Missing, Slots;
      rtr := [];
      var i, allowed := myAru + 1, room;
      ghost var slots := View().slots;
      ghost var limit := if highest < myAru + room then highest else myAru + room;
      while i <= highest && allowed > 0
        invariant myAru < i && allowed == room - (i - myAru - 1)
        invariant Missing(slots, myAru + 1, limit) == rtr + Missing(slots, i, limit)
        decreases allowed
      {
        W.MissingStep(slots, i, limit, rtr);
        SlotsAt(packets[..], lastDiscarded, i);
        if packets[EntryOf(i)].Empty? {
          rtr := rtr + [i];
        }
        i, allowed := i + 1, allowed - 1;
      }
      W.MissingDone(slots, i, limit);
    }

    /** The part of Prot_handle_token up to the moment the token leaves. */
    method BeforeToken(t: Token, count: nat) returns (ok: bool, sent: seq<Packet>)
      requires packets.Length == MAX_PACKETS_IN_STRUCT && TokenFits(State(), t, Plan(count, 0, 0, 0))
      modifies packets, `highest, `messages, `cur, `myAru
      ensures ok <==> Protocol.BeforeToken(old(View()), t, TakePackets(id, old(Queue(messages, cur)), count).0).Go?
      ensures ok ==> (sent, Queue(messages, cur)) == TakePackets(id, old(Queue(messages, cur)), count)
      ensures ok ==> View() == Protocol.BeforeToken(old(View()), t, sent).value && Fits()
    {
      if highest < t.num {
        highest := t.num;
      }
      assert View() == CatchUp(old(View()), t.num);
      var resent;
      ok, resent := AnswerRetrans(t.rtr);
      if !ok {
        return false, [];
      }
      ok, sent := SendNewPackets(count);
      if ok {
        AdvanceMyAru();
      }
    }

    /** Answer_retrans: the packets asked for that are held are sent again, in the order of the
        requests, unless something below Aru is asked for. */
    method AnswerRetrans(rtr: seq<int>) returns (ok: bool, resent: seq<Packet>)
      requires packets.Length == MAX_PACKETS_IN_STRUCT && RequestsFit(View(), rtr)
      ensures ok <==> Answerable(View(), rtr)
      ensures ok ==> resent == Answers(View().slots, rtr)
    {
      hide Slots;
      resent := [];
      for k := 0 to |rtr|
        invariant Answerable(View(), rtr[..k]) && resent == Answers(View().slots, rtr[..k])
      {
        var q := rtr[k];
        assert rtr[..k + 1] == rtr[..k] + [q];
        if q < aru {
          return false, [];
        }
        W.AnswersAppend(View().slots, rtr[..k], q);
        SlotsAt(packets[..], lastDiscarded, q);
        if packets[EntryOf(q)].Full? {
          resent := resent + [packets[EntryOf(q)].slot.packet];
        }
      }
      assert rtr[..|rtr|] == rtr;
      return true, resent;
    }

    /** The part of Prot_handle_token after the token has left. */
    method AfterToken(tokenAru: int, datagrams: nat) returns (ok: bool)
      requires Fits() && tokenAru <= myAru
      modifies packets, `log, `aru, `lastDiscarded, `lastDelivered
      ensures ok <==> Protocol.AfterToken(old(View()), tokenAru, prevAru, datagrams).Go?
      ensures ok ==> View() == Protocol.AfterToken(old(View()), tokenAru, prevAru, datagrams).value
    {
      if tokenAru > prevAru {
        aru := prevAru;
      } else {
        aru := tokenAru;
      }
      ok := DiscardPackets();
      if !ok {
        return;
      }
      ok := DeliverAgreedPackets();
      if !ok {
        return;
      }
      DeliverReliablePackets(highest - datagrams + 1, datagrams);
    }

    /** The three-way update of Token->aru, Token->aru_last_id and Set_aru. */
    method UpdateAru(t: Token) returns (tokenAru: int, lastId: int)
      modifies `mark
      ensures Stamp(tokenAru, lastId, mark) == StampAru(id, old(mark), myAru, highest, t)
      ensures tokenAru <= myAru
    {
      tokenAru, lastId := t.aru, t.lastId;
      if t.aru == mark || t.lastId == id || t.aru == t.num {
        tokenAru, lastId := myAru, id;
        if myAru < highest {
          mark := myAru;
        } else {
          mark := -1;
        }
      } else if t.aru > myAru {
        tokenAru, lastId := myAru, id;
        mark := myAru;
      } else {
        mark := -1;
      }
    }

    /** The token as it leaves, and this daemon's Set_aru and flow control figures. */
    method ForwardToken(t: Token, plan: Plan) returns (forwarded: Token)
      requires Fits()
      modifies `mark, `lastRetrans, `lastSent
      ensures forwarded == NextToken(leader, old(State()), View(), t, plan)
      ensures mark == StampAru(id, old(mark), myAru, highest, t).mark
      ensures (lastRetrans, lastSent) == (plan.retrans, plan.datagrams) && forwarded.aru <= myAru
      ensures View() == old(View())
    {
      hide StampAru, Missing, Slots;
      var rtr := RequestMissing(plan.requests);
      var flow := t.flow - lastRetrans - lastSent + plan.retrans + plan.datagrams;
      var tokenAru, lastId := UpdateAru(t);
      lastRetrans, lastSent := plan.retrans, plan.datagrams;
      forwarded := Token(highest, tokenAru, lastId, flow, if leader then (t.arq + 1) % ARQ_MODULUS else t.arq, rtr);
    }

    /** Prot_handle_token for a regular token that passed the ARQ test. */
    method HandleToken(t: Token, plan: Plan) returns (ok: bool, forwarded: Token, sent: seq<Packet>)
      requires packets.Length == MAX_PACKETS_IN_STRUCT && TokenFits(State(), t, plan)
      modifies this, packets
      ensures ok <==> Protocol.HandleToken(leader, old(State()), t, plan).Go?
      ensures ok ==> TokenResult(State(), forwarded, sent) == Protocol.HandleToken(leader, old(State()), t, plan).value
    {
      hide Protocol.BeforeToken, Protocol.AfterToken, StampAru, Missing, TakePackets, Slots, Answerable;
      forwarded := t;
      ok, sent := BeforeToken(t, plan.count);
      if !ok {
        return;
      }
      forwarded := ForwardToken(t, plan);
      ok := AfterToken(forwarded.aru, plan.datagrams);
      prevAru, prevArq := forwarded.aru, forwarded.arq;
    }
  }
}

/** The recovering daemon as the program keeps it: the buffer of the old ring and the loops that
    mark its holes, take in what still arrives, answer and pass on the token, and drain it. */
module EvsDaemon {
  import opened Outcomes
  import opened Protocol
  import opened Evs
  import A = AruCore
  import F = FormToken
  import G = EvsRing
  import L = EvsLeftover
  import W = WindowInvariant

  class Daemon {
    const id: int
    const ring: int                // Membership_id
    var slots: map<int, Slot>      // entries with exist == 1 or 2
    var holes: set<int>            // entries with exist == 3
    var highest: int
    var myAru: int
    var aru: int
    var lastDiscarded: int
    var lastDelivered: int
    var log: seq<Delivery>
    var lastSeq: int
    var committed: bool
    var mark: int                  // Set_aru
    var prev: int                  // Last_token->aru

    ghost function View(): Recovering
      reads this
    {
      Recovering(Window(slots, highest, myAru, aru, lastDiscarded, lastDelivered, log), holes, lastSeq, committed)
    }

    ghost function State(): G.Survivor
      reads this
    {
      G.Survivor(id, ring, View(), mark, prev, None)
    }

    /** A daemon whose ordinary Discard_packets has just run, up to the aru of the entry. Set_aru
        stays as it is, Last_token->aru is 0. */
    constructor (id: int, ring: int, w: Window, lastSeq: int, mark: int)
      ensures State() == G.Survivor(id, ring, Recovering(w, {}, lastSeq, false), mark, 0, None)
    {
      this.id, this.ring, this.mark, prev := id, ring, mark, 0;
      slots, highest, myAru, aru := w.slots, w.highest, w.myAru, w.aru;
      lastDiscarded, lastDelivered, log := w.lastDiscarded, w.lastDelivered, w.log;
      this.lastSeq, holes, committed := lastSeq, {}, false;
    }

    /** The loop of Read_form2 over the holes of the entry. */
    method MarkHoles(e: F.RingInfo) returns (ok: bool)
      requires holes == {} && F.Increasing(e.holes)
      modifies `holes
      ensures ok <==> forall q :: q in e.holes ==> q !in slots
      ensures ok ==> holes == HoleSet(e)
    {
      for i := 0 to |e.holes|
        invariant forall q :: q in holes <==> q in e.holes[..i]
        invariant forall q :: q in e.holes[..i] ==> q !in slots
      {
        var q := e.holes[i];
        if q in slots {
          return false;
        }
        holes := holes + {q};
        assert e.holes[..i + 1] == e.holes[..i] + [q];
      }
      assert e.holes[..|e.holes|] == e.holes;
      assert forall q :: q in holes <==> q in HoleSet(e);
      return true;
    }

    /** My_aru moves over what is there. */
    method AdvanceMyAru()
      modifies `myAru
      ensures View() == old(View()).(win := old(View()).win.(myAru := AdvanceOver(old(View()), old(myAru))))
    {
      ghost var r := View();
      while myAru < highest && (myAru + 1 in slots || myAru + 1 in holes)
        invariant AdvanceOver(r, myAru) == AdvanceOver(r, old(myAru))
        decreases highest - myAru
      {
        assert Exists(r, myAru + 1);
        myAru := myAru + 1;
      }
    }

    method ReceivePacket(q: int, p: Packet)
      modifies this
      ensures State() == old(State()).(r := Receive(old(View()), q, p))
    {
      if q <= aru || q in slots || q in holes {
        return;
      }
      slots := slots[q := Slot(p, false)];
      if highest < q {
        highest := q;
      }
      if q == myAru + 1 {
        AdvanceMyAru();
      }
    }

    /** Answer_retrans: what is sent again, unless something below Aru is asked for. */
    method AnswerRetrans(rtr: seq<int>) returns (ok: bool, resent: seq<Packet>)
      ensures ok <==> Answerable(View().win, rtr)
      ensures ok ==> resent == Answers(slots, rtr)
    {
      resent := [];
      for k := 0 to |rtr|
        invariant Answerable(View().win, rtr[..k]) && resent == Answers(slots, rtr[..k])
      {
        var q := rtr[k];
        assert rtr[..k + 1] == rtr[..k] + [q];
        if q < aru {
          return false, [];
        }
        W.AnswersAppend(slots, rtr[..k], q);
        if q in slots {
          resent := resent + [slots[q].packet];
        }
      }
      assert rtr[..|rtr|] == rtr;
      return true, resent;
    }

    /** The requests for what is missing among the next `room` numbers after My_aru. */
    method RequestMissing(room: nat) returns (rtr: seq<int>)
      ensures rtr == G.Wanted(View(), myAru + 1, A.Min(highest, myAru + room))
    {
      var limit := if highest < myAru + room then highest else myAru + room;
      ghost var all := G.Wanted(View(), myAru + 1, limit);
      rtr := [];
      var i := myAru + 1;
      while i <= limit
        invariant rtr + G.Wanted(View(), i, limit) == all
        decreases limit - i
      {
        if i !in slots && i !in holes {
          assert rtr + ([i] + G.Wanted(View(), i + 1, limit)) == rtr + [i] + G.Wanted(View(), i + 1, limit);
          rtr := rtr + [i];
        } else {
          assert [] + G.Wanted(View(), i + 1, limit) == G.Wanted(View(), i + 1, limit);
        }
        i := i + 1;
      }
      assert rtr + [] == rtr;
    }

    /** The three-way update, with Token->seq at 0. */
    method UpdateAru(t: G.EvsToken) returns (tokenAru: int, lastId: int)
      modifies `mark
      ensures Stamp(tokenAru, lastId, mark) == StampAru(id, old(mark), myAru, highest, Token(0, t.aru, t.lastId, 0, 0, []))
    {
      tokenAru, lastId := t.aru, t.lastId;
      if t.aru == mark || t.lastId == id || t.aru == 0 {
        tokenAru, lastId, mark := myAru, id, if myAru < highest then myAru else -1;
      } else if t.aru > myAru {
        tokenAru, lastId, mark := myAru, id, myAru;
      } else {
        mark := -1;
      }
    }

    /** Prot_handle_token in EVS, up to the new Aru; `due` when Discard_packets is to drain the
        buffer. */
    method VisitToken(t: G.EvsToken, room: nat)
      returns (ok: bool, forwarded: G.EvsToken, resent: seq<Packet>, due: bool)
      modifies this
      ensures ok <==> Answerable(old(View().win), G.Requested(t, ring))
      ensures ok ==> G.Visited(State(), forwarded) == G.PassOn(old(State()), t, room)
      ensures ok ==> resent == Answers(old(slots), G.Requested(t, ring)) && (due <==> G.IsDue(View()))
    {
      hide AdvanceOver, G.Wanted, Answerable, Answers, StampAru;
      forwarded, due := t, false;
      ok, resent := AnswerRetrans(if ring in t.rtr then t.rtr[ring] else []);
      if !ok {
        return;
      }
      ghost var d := State();
      AdvanceMyAru();
      ghost var my := myAru;
      var rtr := RequestMissing(room);
      if myAru == highest {
        myAru := lastSeq;
        committed := true;
      }
      ghost var r := View();
      var tokenAru, lastId := UpdateAru(t);
      forwarded := G.EvsToken(tokenAru, lastId, t.rtr[ring := rtr]);
      aru := if tokenAru > prev then prev else tokenAru;
      prev := tokenAru;
      due := aru > lastDiscarded && aru == lastSeq;
      PassOnParts(d, t, room, my, rtr, r, Stamp(tokenAru, lastId, mark));
    }

    /** Hand packet q up unless that has been done, and free its entry. */
    method DropPacket(q: int)
      requires q in slots
      modifies `slots, `log
      ensures View().win == Drop(old(View()).win, q)
    {
      if !slots[q].delivered {
        log := log + [Delivery(q, slots[q].packet)];
      }
      slots := slots - {q};
    }

    method DeliverBeforeSignal() returns (ok: bool)
      modifies `slots, `log, `lastDiscarded
      ensures ok <==> BeforeSignal(old(View()).win, holes).Go?
      ensures ok ==> View().win == BeforeSignal(old(View()).win, holes).value
    {
      ghost var spec := BeforeSignal(View().win, holes);
      while lastDiscarded < highest
        invariant BeforeSignal(View().win, holes) == spec
        decreases highest - lastDiscarded
      {
        var q := lastDiscarded + 1;
        if q !in slots && q !in holes {
          return false;
        }
        if q in holes || slots[q].packet.service.Safe? {
          return true;
        }
        DropPacket(q);
        lastDiscarded := q;
      }
      return true;
    }

    method DeliverAfterSignal(commit: set<int>) returns (ok: bool)
      modifies `slots, `log
      ensures ok <==> AfterSignal(old(View()).win, holes, commit, lastDiscarded + 1, false).Go?
      ensures ok ==> View().win == AfterSignal(old(View()).win, holes, commit, lastDiscarded + 1, false).value
    {
      var found := false;
      var i := lastDiscarded + 1;
      ghost var spec := AfterSignal(View().win, holes, commit, i, false);
      while i <= highest
        invariant AfterSignal(View().win, holes, commit, i, found) == spec
        decreases highest - i
      {
        if i !in slots && i !in holes {
          return false;
        }
        if i in holes {
          found := true;
        } else if !found || slots[i].packet.sender in commit {
          DropPacket(i);
        } else {
          slots := slots - {i};
        }
        i := i + 1;
      }
      return true;
    }

    /** Discard_packets in EVS; `before` is what has been handed up when the signal is given. At the
        end everything is reset for the next membership, but for the old packets that have come
        back: they stay in the buffer. */
    method DiscardPackets(commit: set<int>) returns (ok: bool, finish: Finish)
      requires forall q :: q in slots ==> q !in holes
      modifies this
      ensures ok <==> Evs.DiscardEvs(old(View()), commit).Go?
      ensures ok ==> finish == Evs.DiscardEvs(old(View()), commit).value
      ensures ok ==> State() == G.Survivor(id, ring, Recovering(L.NextWindow(old(View()), commit), {}, old(lastSeq), false), -1, 0, None)
    {
      hide BeforeSignal, AfterSignal;
      finish := Finish([], []);
      ok := DeliverBeforeSignal();
      if !ok {
        return;
      }
      var before := log;
      ok := DeliverAfterSignal(commit);
      if !ok {
        return;
      }
      finish := Finish(before, log);
      holes, committed, log, mark, prev := {}, false, [], -1, 0;
      highest, myAru, aru, lastDiscarded, lastDelivered := 0, 0, 0, 0, 0;
    }
  }

  /** The visit put together from what the loops have found. */
  lemma PassOnParts(d: G.Survivor, t: G.EvsToken, room: nat, my: int, rtr: seq<int>, r: Recovering, s: Stamp)
    requires my == AdvanceOver(d.r, d.r.win.myAru)
    requires rtr == G.Wanted(d.r.(win := d.r.win.(myAru := my)), my + 1, A.Min(d.r.win.highest, my + room))
    requires r == (if my == d.r.win.highest then d.r.(win := d.r.win.(myAru := d.r.lastSeq), committed := true)
                   else d.r.(win := d.r.win.(myAru := my)))
    requires s == StampAru(d.id, d.mark, r.win.myAru, d.r.win.highest, Token(0, t.aru, t.lastId, 0, 0, []))
    ensures G.PassOn(d, t, room) == G.Visited(
              d.(r := r.(win := r.win.(aru := A.Min(s.aru, d.prev))), mark := s.mark, prev := s.aru),
              G.EvsToken(s.aru, s.lastId, t.rtr[d.ring := rtr]))
  {
    hide AdvanceOver, G.Wanted, StampAru;
    WantedSame(d.r, my, my + 1, A.Min(d.r.win.highest, my + room));
  }

  /** What is missing does not depend on My_aru. */
  lemma {:induction false} WantedSame(r: Recovering, my: int, from: int, last: int)
    ensures G.Wanted(r.(win := r.win.(myAru := my)), from, last) == G.Wanted(r, from, last)
    decreases last - from
  {
    if from <= last {
      WantedSame(r, my, from + 1, last);
    }
  }
}

/** Old packets that come back during recovery. A daemon that has read its entry has discarded all
    packets up to the entry's aru, but the first visit of the token sets its Aru to 0, and Aru is all
    that keeps such packets out of the buffer. Nothing of the recovery looks at them; they are
    still there when the next membership starts to number its packets from 1. */
module EvsLeftover {
  import opened Outcomes
  import opened Protocol
  import opened FormToken
  import opened Evs
  import opened EvsRing
  import A = AruCore
  import W = WindowInvariant
  import R = Ring

  // ----- what the final delivery leaves in the buffer

  /** Packets[] after Discard_packets. */
  function Drained(r: Recovering, commit: set<int>): map<int, Slot>
    requires DiscardEvs(r, commit).Go?
  {
    var w := BeforeSignal(r.win, r.holes).value;
    AfterSignal(w, r.holes, commit, w.lastDiscarded + 1, false).value.slots
  }

  lemma {:induction false} BeforeSignalLeaves(w: Window, holes: set<int>, q: int)
    requires BeforeSignal(w, holes).Go?
    ensures
      var e := BeforeSignal(w, holes).value;
      q in e.slots <==> q in w.slots && !(w.lastDiscarded < q <= e.lastDiscarded)
    ensures BeforeSignal(w, holes).value.lastDiscarded >= w.lastDiscarded
    ensures BeforeSignal(w, holes).value.highest == w.highest
    decreases w.highest - w.lastDiscarded
  {
    var k := w.lastDiscarded + 1;
    if k <= w.highest && k !in holes && !w.slots[k].packet.service.Safe? {
      BeforeSignalLeaves(Drop(w, k).(lastDiscarded := k), holes, q);
    }
  }

  lemma {:induction false} AfterSignalLeaves(w: Window, holes: set<int>, commit: set<int>, k: int, found: bool, q: int)
    requires AfterSignal(w, holes, commit, k, found).Go?
    ensures q in AfterSignal(w, holes, commit, k, found).value.slots
       <==> q in w.slots && (q in holes || !(k <= q <= w.highest))
    decreases w.highest - k
  {
    if k <= w.highest {
      if k in holes {
        AfterSignalLeaves(w, holes, commit, k + 1, true, q);
      } else if !found || w.slots[k].packet.sender in commit {
        AfterSignalLeaves(Drop(w, k), holes, commit, k + 1, found, q);
      } else {
        AfterSignalLeaves(w.(slots := w.slots - {k}), holes, commit, k + 1, found, q);
      }
    }
  }

  /** Exactly what lies at or below the entry's aru stays. */
  lemma DrainedExactly(r: Recovering, e: RingInfo, h: seq<Packet>, commit: set<int>, q: int)
    requires EvsInv(r, e, h) && DiscardEvs(r, commit).Go?
    ensures q in Drained(r, commit) <==> q in r.win.slots && q <= e.aru
  {
    DiscardUnfolds(r, commit);
    SlotRange(r, e, h, q);
    hide EvsInv, DiscardEvs;
    var w := BeforeSignal(r.win, r.holes).value;
    BeforeSignalLeaves(r.win, r.holes, q);
    AfterSignalLeaves(w, r.holes, commit, w.lastDiscarded + 1, false, q);
    hide BeforeSignal, AfterSignal;
  }

  lemma SlotRange(r: Recovering, e: RingInfo, h: seq<Packet>, q: int)
    requires EvsInv(r, e, h)
    ensures r.win.lastDiscarded == e.aru
    ensures q in r.win.slots && q > e.aru ==> q <= r.win.highest && q !in r.holes
  {
    hide W.Ordered, W.OrderedPrefix, W.LogValid, W.Numbers;
  }

  // ----- which packets come back

  /** The old packets that arrive when Aru no longer keeps them out. */
  function Returned(w: Window, e: RingInfo, lastSeq: int, h: seq<Packet>, steps: seq<Evs.Step>): set<int>
    requires StepsOk(steps, h)
  {
    if steps == [] then {}
    else
      var n := |steps| - 1;
      Returned(w, e, lastSeq, h, steps[..n]) +
      (if steps[n].Arrival? && steps[n].q <= e.aru && AruBefore(w, e, lastSeq, h, steps, n) < steps[n].q then {steps[n].q} else {})
  }

  /** Aru when step i is taken. */
  function AruBefore(w: Window, e: RingInfo, lastSeq: int, h: seq<Packet>, steps: seq<Evs.Step>, i: nat): int
    requires StepsOk(steps, h) && i < |steps|
  {
    var o := Recover(w, e, lastSeq, h, steps[..i]);
    if o.Go? then o.value.win.aru else 0
  }

  /** What can be seen as the packets arrive: each old one is still at or below Aru. */
  ghost predicate KeptOut(w: Window, e: RingInfo, lastSeq: int, h: seq<Packet>, steps: seq<Evs.Step>)
    requires StepsOk(steps, h)
  {
    forall i :: 0 <= i < |steps| && steps[i].Arrival? && steps[i].q <= e.aru ==>
      steps[i].q <= AruBefore(w, e, lastSeq, h, steps, i)
  }

  lemma {:induction false} ReturnedMeans(w: Window, e: RingInfo, lastSeq: int, h: seq<Packet>, steps: seq<Evs.Step>)
    requires StepsOk(steps, h)
    ensures Returned(w, e, lastSeq, h, steps) == {} <==> KeptOut(w, e, lastSeq, h, steps)
    decreases |steps|
  {
    hide Recover;
    if steps != [] {
      var n := |steps| - 1;
      var front := steps[..n];
      ReturnedMeans(w, e, lastSeq, h, front);
      forall i | 0 <= i < n
        ensures AruBefore(w, e, lastSeq, h, front, i) == AruBefore(w, e, lastSeq, h, steps, i)
      {
        assert front[..i] == steps[..i];
      }
      hide AruBefore;
      KeptOutSplits(w, e, lastSeq, h, steps);
    }
  }

  lemma KeptOutSplits(w: Window, e: RingInfo, lastSeq: int, h: seq<Packet>, steps: seq<Evs.Step>)
    requires StepsOk(steps, h) && steps != []
    requires forall i :: 0 <= i < |steps| - 1 ==>
               AruBefore(w, e, lastSeq, h, steps[..|steps| - 1], i) == AruBefore(w, e, lastSeq, h, steps, i)
    ensures
      var n := |steps| - 1;
      KeptOut(w, e, lastSeq, h, steps) <==>
        KeptOut(w, e, lastSeq, h, steps[..n]) &&
        (steps[n].Arrival? && steps[n].q <= e.aru ==> steps[n].q <= AruBefore(w, e, lastSeq, h, steps, n))
  {
    hide AruBefore;
    var n := |steps| - 1;
    assert forall i :: 0 <= i < n ==> steps[..n][i] == steps[i];
  }

  lemma ReadEmpty(w: Window, e: RingInfo, lastSeq: int, h: seq<Packet>, q: int)
    requires Readable(w, e, h) && ReadForm2(w, e, lastSeq).Go? && q <= e.aru
    ensures q !in ReadForm2(w, e, lastSeq).value.win.slots
  {
    FirstDiscard(w, e, h);
    hide Discard;
  }

  lemma ReceiveOld(r: Recovering, e: RingInfo, h: seq<Packet>, q: int, k: int)
    requires EvsInv(r, e, h) && 0 < q <= |h| && k <= e.aru
    ensures k in Receive(r, q, h[q - 1]).win.slots <==> k in r.win.slots || (k == q && r.win.aru < q)
  {
    HolesAbove(r, e, h);
    hide AdvanceOver, EvsInv;
  }

  lemma HolesAbove(r: Recovering, e: RingInfo, h: seq<Packet>)
    requires EvsInv(r, e, h)
    ensures forall q :: q in r.holes ==> e.aru < q
  {
    hide W.Ordered, W.OrderedPrefix, W.LogValid, W.Numbers;
  }

  /** The old packets in the buffer are those that have come back. */
  lemma {:induction false} OldSlots(w: Window, e: RingInfo, lastSeq: int, h: seq<Packet>, steps: seq<Evs.Step>, q: int)
    requires Readable(w, e, h) && |h| < lastSeq && StepsOk(steps, h) && q <= e.aru
    requires forall k :: k in e.holes ==> k !in w.slots
    ensures Recover(w, e, lastSeq, h, steps).Go?
    ensures q in Recover(w, e, lastSeq, h, steps).value.win.slots <==> q in Returned(w, e, lastSeq, h, steps)
    decreases |steps|
  {
    hide EvsInv, HandedUpKept, Readable, Receive, Visit, ReadForm2;
    RecoverKeeps(w, e, lastSeq, h, steps);
    if steps == [] {
      ReadEmpty(w, e, lastSeq, h, q);
    } else {
      var n := |steps| - 1;
      OldSlots(w, e, lastSeq, h, steps[..n], q);
      RecoverKeeps(w, e, lastSeq, h, steps[..n]);
      var r := Recover(w, e, lastSeq, h, steps[..n]).value;
      match steps[n]
      case Arrival(p) => ReceiveOld(r, e, h, p, q);
      case TokenVisit(aru) => VisitSlots(r, aru);
    }
  }

  lemma VisitSlots(r: Recovering, aru: int)
    ensures Visit(r, aru).win.slots == r.win.slots
  {
    hide AdvanceOver;
  }

  /** A daemon that finishes leaves an empty buffer behind if and only if every old packet that
      arrived during its recovery was still at or below its Aru. */
  lemma BufferEmptyExactly(w: Window, e: RingInfo, lastSeq: int, h: seq<Packet>, steps: seq<Evs.Step>, commit: set<int>)
    requires Readable(w, e, h) && |h| < lastSeq && StepsOk(steps, h)
    requires forall q :: q in e.holes ==> q !in w.slots
    ensures Recover(w, e, lastSeq, h, steps).Go?
    ensures
      var r := Recover(w, e, lastSeq, h, steps).value;
      DiscardEvs(r, commit).Go? ==>
        && (Drained(r, commit) == map[] <==> KeptOut(w, e, lastSeq, h, steps))
        && Drained(r, commit).Keys == Returned(w, e, lastSeq, h, steps)
  {
    hide EvsInv, DiscardEvs, Recover, Readable, Drained, Returned, KeptOut;
    RecoverKeeps(w, e, lastSeq, h, steps);
    var r := Recover(w, e, lastSeq, h, steps).value;
    ReturnedMeans(w, e, lastSeq, h, steps);
    if DiscardEvs(r, commit).Go? {
      var left, back := Drained(r, commit), Returned(w, e, lastSeq, h, steps);
      forall q
        ensures q in left.Keys <==> q in back
      {
        DrainedExactly(r, e, h, commit, q);
        if q in back {
          ReturnedOld(w, e, lastSeq, h, steps, q);
        }
        if q <= e.aru {
          OldSlots(w, e, lastSeq, h, steps, q);
        }
      }
      assert left.Keys == back;
      assert left == map[] <==> left.Keys == {};
    }
  }

  lemma {:induction false} ReturnedOld(w: Window, e: RingInfo, lastSeq: int, h: seq<Packet>, steps: seq<Evs.Step>, q: int)
    requires StepsOk(steps, h) && q in Returned(w, e, lastSeq, h, steps)
    ensures q <= e.aru
    decreases |steps|
  {
    hide AruBefore;
    var n := |steps| - 1;
    if q in Returned(w, e, lastSeq, h, steps[..n]) {
      ReturnedOld(w, e, lastSeq, h, steps[..n], q);
    }
  }

  // ----- how it happens

  /** The first visit sets Aru to 0: Last_token->aru is 0 when the entry has been read. */
  lemma FirstVisitDropsAru(d: Survivor, past: Past, t: EvsToken, room: nat)
    requires ReadyMember(d, past) && 0 <= t.aru && VisitToken(d, t, room, Commit(past, d.ring)).Go?
    ensures VisitToken(d, t, room, Commit(past, d.ring)).value.daemon.r.win.aru == 0
  {
    ReadyMemberOk(d, past);
    StampHere(d, past, t);
    VisitFields(d.r, A.Min(Stamped(d, t).aru, d.prev));
    hide Stamped, Visit, Answerable, Wanted, DiscardEvs, EvsInv, HandedUpKept;
  }

  /** So a delayed copy of any old packet gets in after the first visit, and stays. */
  lemma OldPacketStays(w: Window, e: RingInfo, lastSeq: int, h: seq<Packet>, steps: seq<Evs.Step>, i: nat, commit: set<int>)
    requires Readable(w, e, h) && |h| < lastSeq && StepsOk(steps, h) && i + 1 < |steps|
    requires forall q :: q in e.holes ==> q !in w.slots
    requires steps[i] == TokenVisit(0) && steps[i + 1].Arrival? && steps[i + 1].q <= e.aru
    ensures Recover(w, e, lastSeq, h, steps).Go?
    ensures
      var r := Recover(w, e, lastSeq, h, steps).value;
      DiscardEvs(r, commit).Go? ==> steps[i + 1].q in Drained(r, commit)
  {
    hide EvsInv, DiscardEvs, Readable, Drained, Returned, Visit;
    BufferEmptyExactly(w, e, lastSeq, h, steps, commit);
    RecoverKeeps(w, e, lastSeq, h, steps[..i]);
    var front := steps[..i + 1];
    assert front[..i] == steps[..i] && front[i] == steps[i];
    var r := Recover(w, e, lastSeq, h, steps[..i]).value;
    assert Recover(w, e, lastSeq, h, front) == Go(Visit(r, 0));
    assert Visit(r, 0).win.aru == 0 by { VisitFields(r, 0); }
    ReturnedAt(w, e, lastSeq, h, steps, i + 1);
  }

  lemma {:induction false} ReturnedAt(w: Window, e: RingInfo, lastSeq: int, h: seq<Packet>, steps: seq<Evs.Step>, i: nat)
    requires StepsOk(steps, h) && i < |steps| && steps[i].Arrival? && steps[i].q <= e.aru
    requires AruBefore(w, e, lastSeq, h, steps, i) < steps[i].q
    ensures steps[i].q in Returned(w, e, lastSeq, h, steps)
    decreases |steps|
  {
    var n := |steps| - 1;
    if i < n {
      assert steps[..n][..i] == steps[..i];
      ReturnedAt(w, e, lastSeq, h, steps[..n], i);
    }
  }

  // ----- what it does to the next membership

  /** The new packet with the number of an old one is dropped as already there. */
  lemma NewPacketDropped(w: Window, q: int, p: Packet)
    requires q in w.slots
    ensures HandlePacket(w, q, p) == Outcome<Window>.Go(w)
  {
  }

  /** A daemon that would create the packet of that number exits. */
  lemma SenderExits(w: Window, p: Packet)
    requires w.highest + 1 in w.slots
    ensures Append(w, p).Exit?
  {
  }

  /** When the packets before it have been handed up, the old one is handed up under its number. */
  lemma OldPacketDelivered(w: Window, q: int, prior: Packet)
    requires q in w.slots && w.slots[q] == Slot(prior, false) && !prior.service.Safe?
    requires w.lastDelivered + 1 == q == w.myAru + 1 <= w.highest
    ensures
      var e := w.(myAru := Advance(w.slots, w.myAru, w.highest));
      q <= e.myAru && (DeliverAgreed(e).Go? ==> Delivery(q, prior) in DeliverAgreed(e).value.log)
  {
    var e := w.(myAru := Advance(w.slots, w.myAru, w.highest));
    var f := DeliverAt(e, q).(lastDelivered := q);
    assert f.log[|w.log|] == Delivery(q, prior);
    if DeliverAgreed(e).Go? {
      LogGrows(f);
      assert f.log[|w.log|] in DeliverAgreed(f).value.log;
    }
  }

  lemma {:induction false} LogGrows(w: Window)
    requires DeliverAgreed(w).Go?
    ensures w.log <= DeliverAgreed(w).value.log
    decreases w.myAru - w.lastDelivered
  {
    if w.lastDelivered < w.myAru {
      var q := w.lastDelivered + 1;
      if w.slots[q].delivered {
        LogGrows(w.(lastDelivered := q));
      } else if !w.slots[q].packet.service.Safe? {
        LogGrows(DeliverAt(w, q).(lastDelivered := q));
      }
    }
  }

  /** What Discard_packets makes of the daemon for the next membership. */
  function NextWindow(r: Recovering, commit: set<int>): Window
    requires DiscardEvs(r, commit).Go?
  {
    Window(Drained(r, commit), 0, 0, 0, 0, 0, [])
  }

  /** It is the window with which the runs of Ring begin if and only if no old packet came back. */
  lemma NextRingStartsExactly(w: Window, e: RingInfo, lastSeq: int, h: seq<Packet>, steps: seq<Evs.Step>, commit: set<int>)
    requires Readable(w, e, h) && |h| < lastSeq && StepsOk(steps, h)
    requires forall q :: q in e.holes ==> q !in w.slots
    requires Recover(w, e, lastSeq, h, steps).Go? ==> DiscardEvs(Recover(w, e, lastSeq, h, steps).value, commit).Go?
    ensures Recover(w, e, lastSeq, h, steps).Go?
    ensures NextWindow(Recover(w, e, lastSeq, h, steps).value, commit) == R.EMPTY_WINDOW
       <==> KeptOut(w, e, lastSeq, h, steps)
  {
    hide Recover, DiscardEvs, Drained, KeptOut, Readable;
    BufferEmptyExactly(w, e, lastSeq, h, steps, commit);
  }
}

/** Recovery after a membership change: the second pass of the form token, the packets of the old
    ring that still arrive, and the final delivery around the transitional signal. */
module Evs {
  import opened Outcomes
  import opened Protocol
  import opened FormToken
  import W = WindowInvariant

  /** A daemon in EVS: its old buffer, the entries marked as holes (exist == 3), Last_seq, and
      whether it has committed (Memb_commit). */
  datatype Recovering = Recovering(win: Window, holes: set<int>, lastSeq: int, committed: bool)

  predicate Exists(r: Recovering, q: int) {
    q in r.win.slots || q in r.holes
  }

  function HoleSet(e: RingInfo): set<int> {
    set q | q in e.holes
  }

  /** Read_form2: take over the ring's numbers, deliver up to its aru, mark the holes. */
  function ReadForm2(w: Window, e: RingInfo, lastSeq: int): Outcome<Recovering> {
    var w1 :- Discard(w.(highest := e.highest, aru := e.aru));
    if exists i :: 0 <= i < |e.holes| && e.holes[i] in w1.slots then
      Exit("Read_form2: should be a hole")
    else
      Go(Recovering(w1, HoleSet(e), lastSeq, false))
  }

  /** My_aru moves over packets and holes alike. */
  function AdvanceOver(r: Recovering, my: int): int
    decreases r.win.highest - my
  {
    if my < r.win.highest && Exists(r, my + 1) then AdvanceOver(r, my + 1) else my
  }

  /** Prot_handle_bcast in EVS: nothing is delivered. */
  function Receive(r: Recovering, q: int, p: Packet): Recovering {
    if q <= r.win.aru || Exists(r, q) then r
    else
      var r1 := r.(win := r.win.(slots := r.win.slots[q := Slot(p, false)], highest := Max(r.win.highest, q)));
      if q == r.win.myAru + 1 then r1.(win := r1.win.(myAru := AdvanceOver(r1, r.win.myAru))) else r1
  }

  /** A visit of the token, as far as the buffer goes: My_aru moves on, a daemon with nothing
      missing commits, and Aru becomes what the tokens say. */
  function Visit(r: Recovering, aru: int): Recovering {
    var my := AdvanceOver(r, r.win.myAru);
    if my == r.win.highest then r.(win := r.win.(myAru := r.lastSeq, aru := aru), committed := true)
    else r.(win := r.win.(myAru := my, aru := aru))
  }

  // ----- Discard_packets in EVS

  function Drop(w: Window, q: int): Window
    requires q in w.slots
  {
    var e := if w.slots[q].delivered then w else DeliverAt(w, q);
    e.(slots := e.slots - {q})
  }

  /** Everything before the first hole or the first SAFE message. */
  function BeforeSignal(w: Window, holes: set<int>): Outcome<Window>
    decreases w.highest - w.lastDiscarded
  {
    var q := w.lastDiscarded + 1;
    if w.highest < q || q in holes then Go(w)
    else if q !in w.slots then Exit("Discard_packets: (EVS before transitional) packet not exist")
    else if w.slots[q].packet.service.Safe? then Go(w)
    else BeforeSignal(Drop(w, q).(lastDiscarded := q), holes)
  }

  /** The rest; beyond a hole, only what members of the commit set have sent. */
  function AfterSignal(w: Window, holes: set<int>, commit: set<int>, q: int, found: bool): Outcome<Window>
    decreases w.highest - q
  {
    if w.highest < q then Go(w)
    else if q in holes then AfterSignal(w, holes, commit, q + 1, true)
    else if q !in w.slots then Exit("Discard_packets: (EVS after transitional) packet not exist")
    else if !found || w.slots[q].packet.sender in commit then AfterSignal(Drop(w, q), holes, commit, q + 1, found)
    else AfterSignal(w.(slots := w.slots - {q}), holes, commit, q + 1, found)
  }

  /** Everything handed up in the old membership, before and after the transitional signal. */
  datatype Finish = Finish(before: seq<Delivery>, all: seq<Delivery>)

  function DiscardEvs(r: Recovering, commit: set<int>): Outcome<Finish> {
    var w1 :- BeforeSignal(r.win, r.holes);
    var w2 :- AfterSignal(w1, r.holes, commit, w1.lastDiscarded + 1, false);
    Go(Finish(w1.log, w2.log))
  }

  // ----- what the delivery must be, from the packets of the ring and the entry alone

  /** The number at which the transitional signal comes: the first hole or SAFE packet, or the end. */
  function Cut(h: seq<Packet>, holes: set<int>, q: int, last: int): (c: int)
    requires 0 < q <= last + 1 && last <= |h|
    ensures q <= c <= last + 1
    decreases last - q
  {
    if last < q || q in holes || h[q - 1].service.Safe? then q else Cut(h, holes, q + 1, last)
  }

  /** The ordered packets from q on that are delivered after the signal. */
  function Rest(h: seq<Packet>, holes: set<int>, commit: set<int>, q: int, last: int, found: bool): seq<Delivery>
    requires 0 < q && last <= |h|
    decreases last - q
  {
    if last < q then []
    else if q in holes then Rest(h, holes, commit, q + 1, last, true)
    else (if Early(h[q - 1]) || (found && h[q - 1].sender !in commit) then [] else [Delivery(q, h[q - 1])])
         + Rest(h, holes, commit, q + 1, last, found)
  }

  // ----- the invariant of recovery

  /** Old packets, up to Last_discarded, may have come in again; nothing is known of those. */
  ghost predicate Packets(w: Window, h: seq<Packet>) {
    forall q :: q in w.slots && w.lastDiscarded < q ==>
      && 0 < q <= w.highest && q <= |h|
      && w.slots[q].packet == h[q - 1]
      && (q <= w.lastDelivered ==> w.slots[q].delivered)
      && (w.slots[q].delivered ==> (q <= w.lastDelivered || Early(h[q - 1])) && !h[q - 1].service.Safe?)
      && (!w.slots[q].delivered ==> q !in W.Numbers(w.log))
  }

  /** What BeforeSignal keeps. */
  ghost predicate Recoverable(w: Window, holes: set<int>, h: seq<Packet>) {
    && 0 <= w.lastDiscarded <= w.highest <= |h| && 0 <= w.lastDelivered <= w.highest
    && Packets(w, h)
    && W.Ordered(w.log) == W.OrderedPrefix(h, Max(w.lastDiscarded, w.lastDelivered))
    && W.LogValid(w.log, h)
    && (forall q :: w.lastDiscarded < q <= w.lastDelivered ==> q in w.slots)
    && (forall q :: q in holes ==> q !in w.slots && w.lastDiscarded < q)
  }

  /** All the packets between aru and Highest_seq are there or known to be holes. */
  ghost predicate Complete(r: Recovering) {
    forall q :: r.win.lastDiscarded < q <= r.win.highest ==> Exists(r, q)
  }

  /** What a daemon that has read entry e keeps until it finishes. */
  ghost predicate EvsInv(r: Recovering, e: RingInfo, h: seq<Packet>) {
    && Recoverable(r.win, r.holes, h)
    && r.win.lastDiscarded == e.aru <= r.win.myAru
    && r.holes == HoleSet(e)
    && (forall q :: q in r.holes ==> q <= e.highest)
    && e.highest <= r.win.highest && |h| < r.lastSeq
    && (forall q :: r.win.lastDiscarded < q <= r.win.myAru && q <= r.win.highest ==> Exists(r, q) || r.committed)
    && (r.committed && r.win.highest == e.highest ==> Complete(r))
    && (if r.committed then r.win.myAru == r.lastSeq else r.win.myAru <= r.win.highest)
  }

  // ----- before the signal

  lemma DropLog(w: Window, h: seq<Packet>, q: int)
    requires Packets(w, h) && w.highest <= |h| && W.LogValid(w.log, h) && q in w.slots && w.lastDiscarded < q
    ensures W.LogValid(Drop(w, q).log, h)
    ensures W.Ordered(Drop(w, q).log) == W.Ordered(w.log) +
              (if w.slots[q].delivered || Early(h[q - 1]) then [] else [Delivery(q, h[q - 1])])
    ensures Packets(Drop(w, q), h)
  {
    if w.slots[q].delivered {
      assert W.Ordered(w.log) + [] == W.Ordered(w.log);
    } else {
      W.LogAppend(w.log, Delivery(q, w.slots[q].packet), h);
    }
  }

  lemma DropBefore(w: Window, holes: set<int>, h: seq<Packet>)
    requires Recoverable(w, holes, h) && w.lastDiscarded + 1 in w.slots
    ensures Recoverable(Drop(w, w.lastDiscarded + 1).(lastDiscarded := w.lastDiscarded + 1), holes, h)
  {
    var q := w.lastDiscarded + 1;
    DropLog(w, h, q);
    DropPackets(w, h);
    hide W.LogValid, W.Ordered, Packets;
    var n := Max(w.lastDiscarded, w.lastDelivered);
    DeliveredMeans(w, h, q);
    if q <= w.lastDelivered {
      assert W.OrderedPrefix(h, n) + [] == W.OrderedPrefix(h, n);
    }
  }

  lemma DeliveredMeans(w: Window, h: seq<Packet>, q: int)
    requires Packets(w, h) && w.highest <= |h| && q in w.slots && w.lastDiscarded < q
    ensures 0 < q <= |h|
    ensures q <= w.lastDelivered ==> w.slots[q].delivered
    ensures w.slots[q].delivered ==> q <= w.lastDelivered || Early(h[q - 1])
  {
  }

  lemma DropPackets(w: Window, h: seq<Packet>)
    requires Packets(w, h) && w.lastDiscarded + 1 in w.slots
    requires Packets(Drop(w, w.lastDiscarded + 1), h)
    ensures Packets(Drop(w, w.lastDiscarded + 1).(lastDiscarded := w.lastDiscarded + 1), h)
  {
    hide W.Numbers;
  }

  /** Where it stops, everything delivered before lies behind. */
  lemma StoppedThere(w: Window, holes: set<int>, h: seq<Packet>)
    requires Recoverable(w, holes, h)
    requires
      var q := w.lastDiscarded + 1;
      w.highest < q || q in holes || (q in w.slots && w.slots[q].packet.service.Safe?)
    ensures w.lastDelivered <= w.lastDiscarded
    ensures w.lastDiscarded + 1 == Cut(h, holes, w.lastDiscarded + 1, w.highest)
  {
    hide W.Ordered, W.OrderedPrefix, W.LogValid, W.Numbers;
  }

  lemma CutMoves(w: Window, holes: set<int>, h: seq<Packet>)
    requires Recoverable(w, holes, h) && w.lastDiscarded + 1 in w.slots
    requires !w.slots[w.lastDiscarded + 1].packet.service.Safe?
    ensures Cut(h, holes, w.lastDiscarded + 1, w.highest) == Cut(h, holes, w.lastDiscarded + 2, w.highest)
  {
    hide W.Ordered, W.OrderedPrefix, W.LogValid, W.Numbers;
  }

  /** The bounds that the signatures below need. */
  lemma RecoverableBounds(w: Window, holes: set<int>, h: seq<Packet>)
    requires Recoverable(w, holes, h)
    ensures 0 <= w.lastDiscarded <= w.highest <= |h|
  {
  }

  lemma {:induction false} BeforeSignalCanonical(w: Window, holes: set<int>, h: seq<Packet>)
    requires Recoverable(w, holes, h) && BeforeSignal(w, holes).Go?
    ensures 0 <= w.lastDiscarded <= w.highest <= |h|
    ensures
      var e := BeforeSignal(w, holes).value;
      && Recoverable(e, holes, h) && e.highest == w.highest
      && e.lastDiscarded + 1 == Cut(h, holes, w.lastDiscarded + 1, w.highest)
      && e.lastDelivered <= e.lastDiscarded
    decreases w.highest - w.lastDiscarded
  {
    hide Recoverable, Cut;
    RecoverableBounds(w, holes, h);
    var q := w.lastDiscarded + 1;
    if w.highest < q || q in holes || w.slots[q].packet.service.Safe? {
      StoppedThere(w, holes, h);
    } else {
      DropBefore(w, holes, h);
      CutMoves(w, holes, h);
      BeforeSignalCanonical(Drop(w, q).(lastDiscarded := q), holes, h);
    }
  }

  // ----- after the signal

  /** What AfterSignal keeps: everything below q is dealt with. */
  ghost predicate Draining(w: Window, h: seq<Packet>, q: int) {
    && 0 < q && w.highest <= |h| && w.lastDelivered < q && w.lastDiscarded < q
    && Packets(w, h) && W.LogValid(w.log, h)
  }

  lemma {:induction false} AfterSignalCanonical(w: Window, holes: set<int>, commit: set<int>, h: seq<Packet>, q: int, found: bool)
    requires Draining(w, h, q) && AfterSignal(w, holes, commit, q, found).Go?
    ensures 0 < q && w.highest <= |h|
    ensures
      var e := AfterSignal(w, holes, commit, q, found).value;
      && W.Ordered(e.log) == W.Ordered(w.log) + Rest(h, holes, commit, q, w.highest, found)
      && W.LogValid(e.log, h)
    decreases w.highest - q
  {
    hide W.Ordered, W.LogValid, Packets, W.Numbers;
    if w.highest < q {
      assert W.Ordered(w.log) + [] == W.Ordered(w.log);
    } else if q in holes {
      AfterSignalCanonical(w, holes, commit, h, q + 1, true);
    } else {
      DeliveredMeans(w, h, q);
      if !found || h[q - 1].sender in commit {
        DrainOne(w, h, q);
        AfterSignalCanonical(Drop(w, q), holes, commit, h, q + 1, found);
        Concat(W.Ordered(w.log), if Early(h[q - 1]) then [] else [Delivery(q, h[q - 1])],
               Rest(h, holes, commit, q + 1, w.highest, found));
      } else {
        SkipOne(w, h, q);
        AfterSignalCanonical(w.(slots := w.slots - {q}), holes, commit, h, q + 1, found);
        assert [] + Rest(h, holes, commit, q + 1, w.highest, found) == Rest(h, holes, commit, q + 1, w.highest, found);
      }
    }
  }

  lemma Concat<T>(a: seq<T>, b: seq<T>, c: seq<T>)
    ensures (a + b) + c == a + (b + c)
  {
  }

  lemma DrainOne(w: Window, h: seq<Packet>, q: int)
    requires Draining(w, h, q) && q in w.slots
    ensures w.slots[q].packet == h[q - 1]
    ensures Draining(Drop(w, q), h, q + 1)
    ensures W.Ordered(Drop(w, q).log) == W.Ordered(w.log) + (if Early(h[q - 1]) then [] else [Delivery(q, h[q - 1])])
  {
    DropLog(w, h, q);
    hide W.Ordered, W.LogValid, W.Numbers;
  }

  lemma SkipOne(w: Window, h: seq<Packet>, q: int)
    requires Draining(w, h, q) && q in w.slots
    ensures w.slots[q].packet == h[q - 1]
    ensures Draining(w.(slots := w.slots - {q}), h, q + 1)
  {
    hide W.Ordered, W.LogValid, W.Numbers;
  }

  /** What a daemon that finishes has handed up, in order, on either side of the signal: a function
      of the ring's packets, the entry, the commit set and its Highest_seq. No packet twice. */
  lemma FinishCanonical(r: Recovering, e: RingInfo, commit: set<int>, h: seq<Packet>)
    requires EvsInv(r, e, h) && DiscardEvs(r, commit).Go?
    ensures 0 <= e.aru <= r.win.highest <= |h|
    ensures
      var f, c := DiscardEvs(r, commit).value, Cut(h, r.holes, e.aru + 1, r.win.highest);
      && W.Ordered(f.before) == W.OrderedPrefix(h, c - 1)
      && W.Ordered(f.all) == W.OrderedPrefix(h, c - 1) + Rest(h, r.holes, commit, c, r.win.highest, false)
      && W.LogValid(f.all, h)
  {
    hide *;
    DiscardUnfolds(r, commit);
    SignalPoint(r, e, h);
    var w1 := BeforeSignal(r.win, r.holes).value;
    AfterSignalCanonical(w1, r.holes, commit, h, w1.lastDiscarded + 1, false);
  }

  lemma SignalPoint(r: Recovering, e: RingInfo, h: seq<Packet>)
    requires EvsInv(r, e, h) && BeforeSignal(r.win, r.holes).Go?
    ensures 0 <= e.aru <= r.win.highest <= |h|
    ensures
      var w1 := BeforeSignal(r.win, r.holes).value;
      && 0 <= w1.lastDiscarded <= |h| && w1.highest == r.win.highest
      && Draining(w1, h, w1.lastDiscarded + 1)
      && w1.lastDiscarded + 1 == Cut(h, r.holes, e.aru + 1, r.win.highest)
      && W.Ordered(w1.log) == W.OrderedPrefix(h, w1.lastDiscarded)
  {
    hide *;
    EvsBounds(r, e, h);
    BeforeSignalCanonical(r.win, r.holes, h);
    AtSignal(BeforeSignal(r.win, r.holes).value, r.holes, h);
  }

  lemma DiscardUnfolds(r: Recovering, commit: set<int>)
    requires DiscardEvs(r, commit).Go?
    ensures BeforeSignal(r.win, r.holes).Go?
    ensures
      var w1 := BeforeSignal(r.win, r.holes).value;
      && DiscardEvs(r, commit).value.before == w1.log
      && AfterSignal(w1, r.holes, commit, w1.lastDiscarded + 1, false).Go?
      && DiscardEvs(r, commit).value.all == AfterSignal(w1, r.holes, commit, w1.lastDiscarded + 1, false).value.log
  {
    hide BeforeSignal, AfterSignal;
  }

  lemma EvsBounds(r: Recovering, e: RingInfo, h: seq<Packet>)
    requires EvsInv(r, e, h)
    ensures Recoverable(r.win, r.holes, h) && 0 <= e.aru == r.win.lastDiscarded <= r.win.highest <= |h|
  {
  }

  lemma AtSignal(w: Window, holes: set<int>, h: seq<Packet>)
    requires Recoverable(w, holes, h) && w.lastDelivered <= w.lastDiscarded
    ensures Draining(w, h, w.lastDiscarded + 1)
    ensures 0 <= w.lastDiscarded <= |h| && W.Ordered(w.log) == W.OrderedPrefix(h, w.lastDiscarded)
  {
    hide W.Ordered, W.LogValid, W.OrderedPrefix, W.Numbers;
  }

  // ----- reading the entry

  /** What EntryExact says of an entry that one of its own members now reads; w is that member's
      buffer, which may have received more since the first pass. */
  ghost predicate Readable(w: Window, e: RingInfo, h: seq<Packet>) {
    && W.Inv(w, h) && w.aru <= e.aru <= w.myAru && w.highest <= e.highest <= |h|
    && forall q :: q in e.holes ==> e.aru < q <= e.highest
  }

  lemma RaisedCore(w: Window, e: RingInfo, h: seq<Packet>)
    requires Readable(w, e, h)
    ensures W.Core(w.(highest := e.highest, aru := e.aru), h)
  {
    hide W.Ordered, W.OrderedPrefix, W.LogValid, W.Numbers;
  }

  lemma CoreIsRecoverable(w: Window, holes: set<int>, h: seq<Packet>)
    requires W.Core(w, h) && forall q :: q in holes ==> q !in w.slots && w.lastDiscarded < q
    ensures Recoverable(w, holes, h)
  {
    hide W.Ordered, W.OrderedPrefix, W.LogValid, W.Numbers;
  }

  lemma FirstDiscard(w: Window, e: RingInfo, h: seq<Packet>)
    requires Readable(w, e, h)
    ensures Discard(w.(highest := e.highest, aru := e.aru)).Go?
    ensures
      var w1 := Discard(w.(highest := e.highest, aru := e.aru)).value;
      && W.Core(w1, h)
      && w1.highest == e.highest && w1.aru == w1.lastDiscarded == e.aru && w1.myAru == w.myAru
      && (forall q :: q > e.aru ==> (q in w1.slots <==> q in w.slots))
  {
    var w0 := w.(highest := e.highest, aru := e.aru);
    RaisedCore(w, e, h);
    assert w.lastDiscarded == w.aru;
    hide W.Core, W.Inv, Discard;
    W.DiscardKeeps(w0, h);
  }

  /** Reading the entry meets the "should be a hole" exit if and only if one of its holes has
      arrived since the first pass; otherwise the recovery invariant holds. */
  lemma ReadForm2Exact(w: Window, e: RingInfo, lastSeq: int, h: seq<Packet>)
    requires Readable(w, e, h) && |h| < lastSeq
    ensures ReadForm2(w, e, lastSeq).Go? <==> forall q :: q in e.holes ==> q !in w.slots
    ensures ReadForm2(w, e, lastSeq).Go? ==> EvsInv(ReadForm2(w, e, lastSeq).value, e, h)
  {
    FirstDiscard(w, e, h);
    var w1 := Discard(w.(highest := e.highest, aru := e.aru)).value;
    assert W.Held(w1);
    hide W.Core, Discard;
    if ReadForm2(w, e, lastSeq).Go? {
      forall q | q in e.holes
        ensures q !in w1.slots
      {
        var i :| 0 <= i < |e.holes| && e.holes[i] == q;
      }
      CoreIsRecoverable(w1, HoleSet(e), h);
    } else {
      var i :| 0 <= i < |e.holes| && e.holes[i] in w1.slots;
      var q := e.holes[i];
      assert q in e.holes && q > e.aru;
      assert q in w.slots;
    }
  }

  // ----- receiving and committing

  lemma {:induction false} AdvanceOverFacts(r: Recovering, my: int)
    ensures my <= AdvanceOver(r, my)
    ensures AdvanceOver(r, my) == my || AdvanceOver(r, my) <= r.win.highest
    ensures forall q :: my < q <= AdvanceOver(r, my) ==> Exists(r, q)
    decreases r.win.highest - my
  {
    if my < r.win.highest && Exists(r, my + 1) {
      AdvanceOverFacts(r, my + 1);
    }
  }

  lemma InsertRecoverable(w: Window, holes: set<int>, h: seq<Packet>, q: int)
    requires Recoverable(w, holes, h) && w.lastDiscarded < q <= |h| && q !in w.slots && q !in holes
    requires q !in W.Numbers(w.log)
    ensures Recoverable(w.(slots := w.slots[q := Slot(h[q - 1], false)], highest := Max(w.highest, q)), holes, h)
  {
    hide W.Ordered, W.OrderedPrefix, W.LogValid, W.Numbers;
  }

  /** A packet that has been handed up is still there or behind. */
  ghost predicate HandedUpKept(w: Window) {
    forall q :: q in W.Numbers(w.log) ==> q <= w.lastDiscarded || q in w.slots
  }

  lemma InsertKeeps(r: Recovering, e: RingInfo, h: seq<Packet>, q: int)
    requires EvsInv(r, e, h) && HandedUpKept(r.win) && r.win.lastDiscarded < q <= |h| && !Exists(r, q)
    ensures
      var r1 := r.(win := r.win.(slots := r.win.slots[q := Slot(h[q - 1], false)], highest := Max(r.win.highest, q)));
      EvsInv(r1, e, h) && HandedUpKept(r1.win)
  {
    InsertRecoverable(r.win, r.holes, h, q);
    var r1 := r.(win := r.win.(slots := r.win.slots[q := Slot(h[q - 1], false)], highest := Max(r.win.highest, q)));
    assert forall k :: Exists(r, k) ==> Exists(r1, k);
    hide Recoverable, W.Numbers;
  }

  /** My_aru plays no part in what is recovered. */
  lemma RecoverableMyAru(w: Window, my: int, holes: set<int>, h: seq<Packet>)
    requires Recoverable(w, holes, h)
    ensures Recoverable(w.(myAru := my), holes, h)
  {
  }

  /** My_aru may move over whatever is there. */
  lemma MoveKeeps(r: Recovering, e: RingInfo, h: seq<Packet>, my: int)
    requires EvsInv(r, e, h) && my == AdvanceOver(r, r.win.myAru) && (r.committed ==> my == r.win.myAru)
    ensures EvsInv(r.(win := r.win.(myAru := my)), e, h)
  {
    AdvanceOverFacts(r, r.win.myAru);
    RecoverableMyAru(r.win, my, r.holes, h);
    hide Recoverable, AdvanceOver;
    var r1 := r.(win := r.win.(myAru := my));
    assert forall k :: Exists(r, k) <==> Exists(r1, k);
  }

  lemma CommittedStays(r: Recovering, e: RingInfo, h: seq<Packet>)
    requires EvsInv(r, e, h) && r.committed
    ensures r.win.myAru == r.lastSeq == AdvanceOver(r, r.win.myAru) && |h| < r.lastSeq && r.win.highest < r.lastSeq
  {
  }

  /** An old packet that Aru no longer keeps out: it occupies an entry, and that is all. */
  lemma InsertOldKeeps(r: Recovering, e: RingInfo, h: seq<Packet>, q: int, p: Packet)
    requires EvsInv(r, e, h) && HandedUpKept(r.win) && q <= r.win.lastDiscarded && !Exists(r, q)
    ensures
      var r1 := r.(win := r.win.(slots := r.win.slots[q := Slot(p, false)]));
      EvsInv(r1, e, h) && HandedUpKept(r1.win) && Max(r.win.highest, q) == r.win.highest && q != r.win.myAru + 1
  {
    var r1 := r.(win := r.win.(slots := r.win.slots[q := Slot(p, false)]));
    assert forall k :: k != q ==> (Exists(r, k) <==> Exists(r1, k));
    hide W.Ordered, W.OrderedPrefix, W.LogValid, W.Numbers;
  }

  lemma ReceiveKeeps(r: Recovering, e: RingInfo, h: seq<Packet>, q: int)
    requires EvsInv(r, e, h) && HandedUpKept(r.win) && 0 < q <= |h|
    ensures EvsInv(Receive(r, q, h[q - 1]), e, h) && HandedUpKept(Receive(r, q, h[q - 1]).win)
    ensures q <= e.highest ==> Receive(r, q, h[q - 1]).win.highest == r.win.highest
    ensures q > e.highest ==>
      Receive(r, q, h[q - 1]).win.highest == Max(r.win.highest, q) || Exists(r, q) || q <= r.win.aru
  {
    EvsHighest(r, e, h);
    if q > r.win.aru && !Exists(r, q) {
      if q <= r.win.lastDiscarded {
        InsertOldKeeps(r, e, h, q, h[q - 1]);
      } else {
        InsertKeeps(r, e, h, q);
        var r1 := r.(win := r.win.(slots := r.win.slots[q := Slot(h[q - 1], false)], highest := Max(r.win.highest, q)));
        if r.committed {
          CommittedStays(r, e, h);
        }
        if q == r.win.myAru + 1 {
          MoveKeeps(r1, e, h, AdvanceOver(r1, r.win.myAru));
        }
      }
      hide EvsInv, AdvanceOver, W.Numbers;
    }
  }

  lemma EvsHighest(r: Recovering, e: RingInfo, h: seq<Packet>)
    requires EvsInv(r, e, h)
    ensures e.aru == r.win.lastDiscarded && e.highest <= r.win.highest
  {
  }

  lemma VisitKeeps(r: Recovering, e: RingInfo, h: seq<Packet>, aru: int)
    requires EvsInv(r, e, h) && HandedUpKept(r.win)
    ensures EvsInv(Visit(r, aru), e, h) && HandedUpKept(Visit(r, aru).win)
    ensures Visit(r, aru).win.highest == r.win.highest
  {
    if r.committed {
      CommittedStays(r, e, h);
    }
    var my := AdvanceOver(r, r.win.myAru);
    MoveKeeps(r, e, h, my);
    var r1 := r.(win := r.win.(myAru := my));
    if my == r.win.highest {
      CommitKeeps(r1, e, h);
      AruPlaysNoPart(r1.(win := r1.win.(myAru := r.lastSeq), committed := true), e, h, aru);
    } else {
      AruPlaysNoPart(r1, e, h, aru);
    }
    hide EvsInv, AdvanceOver, W.Numbers;
  }

  lemma AruPlaysNoPart(r: Recovering, e: RingInfo, h: seq<Packet>, aru: int)
    requires EvsInv(r, e, h)
    ensures EvsInv(r.(win := r.win.(aru := aru)), e, h)
  {
    var r1 := r.(win := r.win.(aru := aru));
    assert forall k :: Exists(r, k) <==> Exists(r1, k);
    hide W.Ordered, W.OrderedPrefix, W.LogValid, W.Numbers;
  }

  /** A daemon commits when it has everything, holes apart. */
  lemma CommitKeeps(r: Recovering, e: RingInfo, h: seq<Packet>)
    requires EvsInv(r, e, h) && !r.committed && r.win.myAru == r.win.highest
    ensures EvsInv(r.(win := r.win.(myAru := r.lastSeq), committed := true), e, h)
  {
    RecoverableMyAru(r.win, r.lastSeq, r.holes, h);
    hide Recoverable;
    var r1 := r.(win := r.win.(myAru := r.lastSeq), committed := true);
    assert forall k :: Exists(r, k) <==> Exists(r1, k);
  }

  // ----- finishing

  lemma {:induction false} BeforeSignalGoes(w: Window, holes: set<int>)
    requires forall q :: w.lastDiscarded < q <= w.highest ==> q in w.slots || q in holes
    ensures BeforeSignal(w, holes).Go?
    ensures
      var e := BeforeSignal(w, holes).value;
      forall q :: e.lastDiscarded < q <= e.highest ==> q in e.slots || q in holes
    decreases w.highest - w.lastDiscarded
  {
    var q := w.lastDiscarded + 1;
    if q <= w.highest && q !in holes && !w.slots[q].packet.service.Safe? {
      BeforeSignalGoes(Drop(w, q).(lastDiscarded := q), holes);
    }
  }

  lemma {:induction false} AfterSignalGoes(w: Window, holes: set<int>, commit: set<int>, q: int, found: bool)
    requires forall k :: q <= k <= w.highest ==> k in w.slots || k in holes
    ensures AfterSignal(w, holes, commit, q, found).Go?
    decreases w.highest - q
  {
    if q <= w.highest {
      if q in holes {
        AfterSignalGoes(w, holes, commit, q + 1, true);
      } else if !found || w.slots[q].packet.sender in commit {
        AfterSignalGoes(Drop(w, q), holes, commit, q + 1, found);
      } else {
        AfterSignalGoes(w.(slots := w.slots - {q}), holes, commit, q + 1, found);
      }
    }
  }

  lemma {:induction false} BeforeSignalNeeds(w: Window, holes: set<int>)
    requires BeforeSignal(w, holes).Go?
    ensures
      var e := BeforeSignal(w, holes).value;
      && w.lastDiscarded <= e.lastDiscarded && e.highest == w.highest && e.slots.Keys <= w.slots.Keys
      && forall q :: w.lastDiscarded < q <= e.lastDiscarded ==> q in w.slots || q in holes
    decreases w.highest - w.lastDiscarded
  {
    var q := w.lastDiscarded + 1;
    if q <= w.highest && q !in holes && !w.slots[q].packet.service.Safe? {
      BeforeSignalNeeds(Drop(w, q).(lastDiscarded := q), holes);
    }
  }

  lemma {:induction false} AfterSignalNeeds(w: Window, holes: set<int>, commit: set<int>, q: int, found: bool)
    requires AfterSignal(w, holes, commit, q, found).Go?
    ensures forall k :: q <= k <= w.highest ==> k in w.slots || k in holes
    decreases w.highest - q
  {
    if q <= w.highest {
      if q in holes {
        AfterSignalNeeds(w, holes, commit, q + 1, true);
      } else if !found || w.slots[q].packet.sender in commit {
        AfterSignalNeeds(Drop(w, q), holes, commit, q + 1, found);
      } else {
        AfterSignalNeeds(w.(slots := w.slots - {q}), holes, commit, q + 1, found);
      }
    }
  }

  /** And it leaves an empty buffer behind. */
  lemma {:induction false} BeforeSignalWithin(w: Window, holes: set<int>)
    requires BeforeSignal(w, holes).Go? && forall q :: q in w.slots ==> w.lastDiscarded < q <= w.highest
    ensures var e := BeforeSignal(w, holes).value;
            e.highest == w.highest && forall q :: q in e.slots ==> e.lastDiscarded < q <= e.highest
    decreases w.highest - w.lastDiscarded
  {
    var q := w.lastDiscarded + 1;
    if q <= w.highest && q !in holes && !w.slots[q].packet.service.Safe? {
      BeforeSignalWithin(Drop(w, q).(lastDiscarded := q), holes);
    }
  }

  lemma {:induction false} AfterSignalEmpties(w: Window, holes: set<int>, commit: set<int>, q: int, found: bool)
    requires AfterSignal(w, holes, commit, q, found).Go? && forall k :: k in w.slots ==> q <= k <= w.highest && k !in holes
    ensures AfterSignal(w, holes, commit, q, found).value.slots == map[]
    decreases w.highest - q
  {
    if q <= w.highest {
      if q in holes {
        AfterSignalEmpties(w, holes, commit, q + 1, true);
      } else if !found || w.slots[q].packet.sender in commit {
        AfterSignalEmpties(Drop(w, q), holes, commit, q + 1, found);
      } else {
        AfterSignalEmpties(w.(slots := w.slots - {q}), holes, commit, q + 1, found);
      }
    } else {
      assert forall k :: k !in w.slots;
      assert w.slots == map[];
    }
  }

  /** The final delivery runs to its end if and only if every number up to Highest_seq is either
      there or a known hole. */
  lemma FinishesExactly(r: Recovering, commit: set<int>)
    ensures DiscardEvs(r, commit).Go? <==> Complete(r)
  {
    if Complete(r) {
      forall q | r.win.lastDiscarded < q <= r.win.highest
        ensures q in r.win.slots || q in r.holes
      {
        assert Exists(r, q);
      }
      BeforeSignalGoes(r.win, r.holes);
      var w1 := BeforeSignal(r.win, r.holes).value;
      AfterSignalGoes(w1, r.holes, commit, w1.lastDiscarded + 1, false);
    }
    if DiscardEvs(r, commit).Go? {
      BeforeSignalNeeds(r.win, r.holes);
      var w1 := BeforeSignal(r.win, r.holes).value;
      AfterSignalNeeds(w1, r.holes, commit, w1.lastDiscarded + 1, false);
    }
  }

  // ----- runs of recovery

  datatype Step = Arrival(q: int) | TokenVisit(aru: int)

  /** One daemon from reading the entry on: `steps` are the packets that arrive and its visits.
      What Aru becomes at a visit is left open here: it depends on the other daemons, and
      what is delivered does not depend on it. */
  function Recover(w: Window, e: RingInfo, lastSeq: int, h: seq<Packet>, steps: seq<Step>): Outcome<Recovering>
    requires forall i :: 0 <= i < |steps| && steps[i].Arrival? ==> 0 < steps[i].q <= |h|
    decreases |steps|
  {
    if steps == [] then ReadForm2(w, e, lastSeq)
    else
      var n := |steps| - 1;
      var r :- Recover(w, e, lastSeq, h, steps[..n]);
      Go(match steps[n]
         case Arrival(q) => Receive(r, q, h[q - 1])
         case TokenVisit(aru) => Visit(r, aru))
  }

  ghost predicate StepsOk(steps: seq<Step>, h: seq<Packet>) {
    forall i :: 0 <= i < |steps| && steps[i].Arrival? ==> 0 < steps[i].q <= |h|
  }

  /** No packet of the old ring above the entry's highest number turns up. */
  ghost predicate NothingLate(steps: seq<Step>, e: RingInfo) {
    forall i :: 0 <= i < |steps| && steps[i].Arrival? ==> steps[i].q <= e.highest
  }

  lemma ReadHandedUp(w: Window, e: RingInfo, lastSeq: int, h: seq<Packet>)
    requires Readable(w, e, h) && ReadForm2(w, e, lastSeq).Go?
    ensures HandedUpKept(ReadForm2(w, e, lastSeq).value.win)
    ensures ReadForm2(w, e, lastSeq).value.win.highest == e.highest
  {
    FirstDiscard(w, e, h);
    var w1 := Discard(w.(highest := e.highest, aru := e.aru)).value;
    assert W.HandedUp(w1);
  }

  lemma {:induction false} RecoverKeeps(w: Window, e: RingInfo, lastSeq: int, h: seq<Packet>, steps: seq<Step>)
    requires Readable(w, e, h) && |h| < lastSeq && StepsOk(steps, h)
    requires forall q :: q in e.holes ==> q !in w.slots
    ensures Recover(w, e, lastSeq, h, steps).Go?
    ensures var r := Recover(w, e, lastSeq, h, steps).value;
            && EvsInv(r, e, h) && HandedUpKept(r.win)
            && (NothingLate(steps, e) ==> r.win.highest == e.highest)
    decreases |steps|
  {
    hide EvsInv, HandedUpKept, Readable, Receive, Visit, ReadForm2;
    if steps == [] {
      ReadForm2Exact(w, e, lastSeq, h);
      ReadHandedUp(w, e, lastSeq, h);
    } else {
      var n := |steps| - 1;
      RecoverKeeps(w, e, lastSeq, h, steps[..n]);
      var r := Recover(w, e, lastSeq, h, steps[..n]).value;
      match steps[n]
      case Arrival(q) => ReceiveKeeps(r, e, h, q);
      case TokenVisit(aru) => VisitKeeps(r, e, h, aru);
    }
  }

  /** A daemon that commits, with nothing late, finishes. */
  lemma CommittedFinishes(w: Window, e: RingInfo, lastSeq: int, h: seq<Packet>, steps: seq<Step>, commit: set<int>)
    requires Readable(w, e, h) && |h| < lastSeq && StepsOk(steps, h) && NothingLate(steps, e)
    requires forall q :: q in e.holes ==> q !in w.slots
    ensures Recover(w, e, lastSeq, h, steps).Go?
    ensures var r := Recover(w, e, lastSeq, h, steps).value;
            r.committed ==> DiscardEvs(r, commit).Go?
  {
    hide Recover, DiscardEvs, Readable, Recoverable;
    RecoverKeeps(w, e, lastSeq, h, steps);
    FinishesExactly(Recover(w, e, lastSeq, h, steps).value, commit);
  }

  /** Virtual synchrony. Two daemons that have read the same entry of the same ring, whatever
      each had received and whatever each still receives of the packets up to the entry's highest
      number, hand up the same ordered packets, in the same order, with the transitional signal at
      the same place; and nothing is handed up twice. */
  lemma VirtualSynchrony(w: Window, w': Window, e: RingInfo, lastSeq: int, h: seq<Packet>,
                         steps: seq<Step>, steps': seq<Step>, commit: set<int>)
    requires Readable(w, e, h) && Readable(w', e, h) && |h| < lastSeq
    requires StepsOk(steps, h) && NothingLate(steps, e) && StepsOk(steps', h) && NothingLate(steps', e)
    requires forall q :: q in e.holes ==> q !in w.slots && q !in w'.slots
    ensures Recover(w, e, lastSeq, h, steps).Go? && Recover(w', e, lastSeq, h, steps').Go?
    ensures
      var r, r' := Recover(w, e, lastSeq, h, steps).value, Recover(w', e, lastSeq, h, steps').value;
      DiscardEvs(r, commit).Go? && DiscardEvs(r', commit).Go? ==>
        var f, f' := DiscardEvs(r, commit).value, DiscardEvs(r', commit).value;
        && W.Ordered(f.before) == W.Ordered(f'.before)
        && W.Ordered(f.all) == W.Ordered(f'.all)
        && W.LogValid(f.all, h) && W.LogValid(f'.all, h)
  {
    hide Recover, DiscardEvs, Readable, W.Ordered, W.OrderedPrefix, W.LogValid, Cut, Rest, Recoverable;
    RecoverKeeps(w, e, lastSeq, h, steps);
    RecoverKeeps(w', e, lastSeq, h, steps');
    var r, r' := Recover(w, e, lastSeq, h, steps).value, Recover(w', e, lastSeq, h, steps').value;
    if DiscardEvs(r, commit).Go? && DiscardEvs(r', commit).Go? {
      FinishCanonical(r, e, commit, h);
      FinishCanonical(r', e, commit, h);
    }
  }
}

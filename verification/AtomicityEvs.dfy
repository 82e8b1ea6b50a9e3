/** Messages across a membership change: what is left half delivered is dropped by everyone and
    sent again whole, and everything else that came through senders have sent is handed up. */
module AtomicityEvs {
  import opened Outcomes
  import opened Protocol
  import opened FormToken
  import opened Evs
  import opened Atomicity
  import opened AtomicityRuns
  import R = Ring
  import W = WindowInvariant
  import E = EvsTheorems

  // ----- the ordered packets of one sender, in pieces

  lemma OrderlyAppend(ps: seq<Packet>, p: Packet, id: int)
    ensures Orderly(ps + [p], id) == Orderly(ps, id) + (if p.sender == id && !Early(p) then [p] else [])
  {
    Last(ps, p);
  }

  lemma {:induction false} OrderlyConcat(ps: seq<Packet>, qs: seq<Packet>, id: int)
    ensures Orderly(ps + qs, id) == Orderly(ps, id) + Orderly(qs, id)
    decreases |qs|
  {
    if qs == [] {
      assert ps + qs == ps;
    } else {
      var n := |qs| - 1;
      OrderlyConcat(ps, qs[..n], id);
      assert ps + qs == (ps + qs[..n]) + [qs[n]];
      OrderlyAppend(ps + qs[..n], qs[n], id);
    }
  }

  lemma {:induction false} OrderlyNone(ps: seq<Packet>, id: int)
    requires forall i :: 0 <= i < |ps| ==> ps[i].sender != id
    ensures Orderly(ps, id) == []
  {
    if ps != [] {
      OrderlyNone(ps[..|ps| - 1], id);
    }
  }

  // ----- what is delivered after the signal, for one sender

  ghost predicate NoHoleOf(h: seq<Packet>, holes: set<int>, id: int) {
    forall q :: q in holes && 0 < q <= |h| ==> h[q - 1].sender != id
  }

  /** The part of Rest that packet q contributes. */
  function Head(h: seq<Packet>, commit: set<int>, q: int, found: bool): seq<Delivery>
    requires 0 < q <= |h|
  {
    if Early(h[q - 1]) || (found && h[q - 1].sender !in commit) then [] else [Delivery(q, h[q - 1])]
  }

  lemma HeadOrderly(h: seq<Packet>, commit: set<int>, q: int, found: bool, id: int)
    requires 0 < q <= |h|
    ensures id in commit || !found ==> Orderly(Stream(Head(h, commit, q, found)), id) == Orderly([h[q - 1]], id)
    ensures id !in commit && found ==> Orderly(Stream(Head(h, commit, q, found)), id) == []
  {
    var ds := Head(h, commit, q, found);
    OrderlyAppend([], h[q - 1], id);
    assert [] + [h[q - 1]] == [h[q - 1]];
    if ds != [] {
      assert Stream(ds) == [h[q - 1]];
    }
  }

  lemma StreamConcat(a: seq<Delivery>, b: seq<Delivery>)
    ensures Stream(a + b) == Stream(a) + Stream(b)
  {
  }

  /** The ordered packets numbered q..last of one sender. */
  function Piece(h: seq<Packet>, q: int, last: int, id: int): seq<Packet>
    requires 0 < q <= last + 1 && last <= |h|
  {
    Orderly(h[q - 1..last], id)
  }

  lemma PieceUnfolds(h: seq<Packet>, q: int, last: int, id: int)
    requires 0 < q <= last <= |h|
    ensures Piece(h, q, last, id) == Orderly([h[q - 1]], id) + Piece(h, q + 1, last, id)
  {
    assert h[q - 1..last] == [h[q - 1]] + h[q..last];
    OrderlyConcat([h[q - 1]], h[q..last], id);
  }

  /** Of a sender that came through, all; of another, everything up to the first hole. */
  ghost predicate RestIsPiece(h: seq<Packet>, holes: set<int>, commit: set<int>, q: int, last: int, found: bool, id: int)
    requires 0 < q <= last + 1 && last <= |h|
  {
    var rest, piece := Orderly(Stream(Rest(h, holes, commit, q, last, found)), id), Piece(h, q, last, id);
    && (id in commit ==> rest == piece)
    && (id !in commit && found ==> rest == [])
    && rest <= piece
  }

  lemma HoleStep(h: seq<Packet>, holes: set<int>, commit: set<int>, q: int, last: int, found: bool, id: int)
    requires 0 < q <= last <= |h| && q in holes && (id in commit ==> NoHoleOf(h, holes, id))
    requires RestIsPiece(h, holes, commit, q + 1, last, true, id)
    ensures RestIsPiece(h, holes, commit, q, last, found, id)
  {
    hide Piece, Orderly, Early, Stream;
    PieceUnfolds(h, q, last, id);
    if id in commit {
      assert h[q - 1].sender != id;
      OrderlyNone([h[q - 1]], id);
      assert [] + Piece(h, q + 1, last, id) == Piece(h, q + 1, last, id);
    }
  }

  lemma PacketStep(h: seq<Packet>, holes: set<int>, commit: set<int>, q: int, last: int, found: bool, id: int)
    requires 0 < q <= last <= |h| && q !in holes
    requires RestIsPiece(h, holes, commit, q + 1, last, found, id)
    ensures RestIsPiece(h, holes, commit, q, last, found, id)
  {
    hide Piece, Orderly, Stream;
    PieceUnfolds(h, q, last, id);
    var head, tail := Head(h, commit, q, found), Rest(h, holes, commit, q + 1, last, found);
    assert Rest(h, holes, commit, q, last, found) == head + tail;
    StreamConcat(head, tail);
    OrderlyConcat(Stream(head), Stream(tail), id);
    hide Rest, Head;
    HeadOrderly(h, commit, q, found, id);
  }

  lemma {:induction false} RestOfSender(h: seq<Packet>, holes: set<int>, commit: set<int>, q: int, last: int, found: bool, id: int)
    requires 0 < q <= last + 1 && last <= |h| && (id in commit ==> NoHoleOf(h, holes, id))
    ensures RestIsPiece(h, holes, commit, q, last, found, id)
    decreases last - q
  {
    if last < q {
      assert h[q - 1..last] == [];
    } else {
      hide RestIsPiece, NoHoleOf;
      if q in holes {
        RestOfSender(h, holes, commit, q + 1, last, true, id);
        HoleStep(h, holes, commit, q, last, found, id);
      } else {
        RestOfSender(h, holes, commit, q + 1, last, found, id);
        PacketStep(h, holes, commit, q, last, found, id);
      }
    }
  }

  // ----- everything handed up in the old membership

  /** No packet of the sender is numbered above last. */
  ghost predicate NothingAbove(h: seq<Packet>, last: int, id: int) {
    forall k :: 0 <= k < |h| && h[k].sender == id ==> k < last
  }

  lemma FinishOfSender(log: seq<Delivery>, h: seq<Packet>, holes: set<int>, commit: set<int>, c: int, last: int, id: int)
    requires 0 < c <= last + 1 && last <= |h| && (id in commit ==> NoHoleOf(h, holes, id) && NothingAbove(h, last, id))
    requires W.Ordered(log) == W.OrderedPrefix(h, c - 1) + Rest(h, holes, commit, c, last, false)
    ensures Orderly(Stream(log), id) <= Orderly(h, id)
    ensures id in commit ==> Orderly(Stream(log), id) == Orderly(h, id)
  {
    hide W.Ordered, W.OrderedPrefix, Rest, Orderly, Stream, NoHoleOf;
    OrderlyOrdered(log, id);
    StreamConcat(W.OrderedPrefix(h, c - 1), Rest(h, holes, commit, c, last, false));
    OrderlyConcat(Stream(W.OrderedPrefix(h, c - 1)), Stream(Rest(h, holes, commit, c, last, false)), id);
    OrderlyPrefix(h, c - 1, id);
    RestOfSender(h, holes, commit, c, last, false, id);
    assert h[..last] == h[..c - 1] + h[c - 1..last];
    OrderlyConcat(h[..c - 1], h[c - 1..last], id);
    assert h == h[..last] + h[last..];
    OrderlyConcat(h[..last], h[last..], id);
    if id in commit {
      OrderlyNone(h[last..], id);
    }
  }

  /** What the session layer got from one sender by the end of the old membership. */
  ghost predicate SenderFinished(log: seq<Delivery>, h: seq<Packet>, commit: set<int>, id: int) {
    && HandUp(Stream(log)).Go? && Assemble(Own(h, id)).Go?
    && var handed, sent := MessagesOf(HandUp(Stream(log)).value.handed, id), Regular(Assemble(Own(h, id)).value.done);
       && handed <= sent
       && (id in commit ==> handed == sent)
  }

  lemma SenderFinishes(log: seq<Delivery>, h: seq<Packet>, commit: set<int>, id: int)
    requires SendersOk(h) && HandUp(Stream(log)).Go? && Sorted(Stream(log), HandUp(Stream(log)).value)
    requires Orderly(Stream(log), id) <= Orderly(h, id)
    requires id in commit ==> Orderly(Stream(log), id) == Orderly(h, id)
    ensures SenderFinished(log, h, commit, id)
  {
    hide HandUp, Assemble, Own, Orderly, MessagesOf, Regular, Parts;
    assert Assemble(Own(h, id)).Go?;
    WithoutEarly(h, id);
    AssemblePrefix(Orderly(Stream(log), id), Orderly(h, id));
    var u := HandUp(Stream(log)).value;
    assert Assemble(Orderly(Stream(log), id)) == Go(Track(MessagesOf(u.handed, id), Parts(u, From(id))));
  }

  lemma FinishSorts(log: seq<Delivery>, h: seq<Packet>)
    requires SendersOk(h) && forall id :: Orderly(Stream(log), id) <= Orderly(h, id)
    ensures HandUp(Stream(log)).Go? && Sorted(Stream(log), HandUp(Stream(log)).value)
  {
    hide HandUp, Assemble, Own, Orderly, Sorted;
    forall id
      ensures Assemble(Orderly(Stream(log), id)).Go?
    {
      assert Assemble(Own(h, id)).Go?;
      WithoutEarly(h, id);
      AssemblePrefix(Orderly(Stream(log), id), Orderly(h, id));
    }
    HandUpSorts(Stream(log));
  }

  /** Every member of a participant's commit set is one whose packets that participant has: itself,
      and those with which it has already committed in an interrupted recovery. */
  ghost predicate Vouched(ps: seq<Participant>, h: seq<Packet>) {
    forall k, x :: 0 <= k < |ps| && (x == ps[k].id || x in ps[k].commit) ==> Keeps(ps[k].win, h, x)
  }

  /** So no hole was sent by a member of the entry's commit set, and none of its packets is above
      the entry's highest number. */
  lemma CommitHasNoHoles(ps: seq<Participant>, h: seq<Packet>, e: RingInfo, x: int)
    requires HolesExact(ps, e) && Maxima(ps, e) && CommitExact(ps, e) && Vouched(ps, h) && x in e.commit
    ensures NoHoleOf(h, HoleSet(e), x) && NothingAbove(h, e.highest, x)
  {
    assert Named(ps, x);
    var i :| 0 <= i < |ps| && (x == ps[i].id || x in ps[i].commit);
    assert Keeps(ps[i].win, h, x);
    forall q | q in HoleSet(e) && 0 < q <= |h|
      ensures h[q - 1].sender != x
    {
      assert !SomeoneHas(ps, q);
    }
  }

  /** A recovery that finishes has handed up whole messages only. From a sender in the commit set
      it has handed up every message that was completely sent; from any other, the first of them. */
  lemma RecoveryIsWhole(ps: seq<Participant>, h: seq<Packet>, e: RingInfo, r: Recovering, id: int)
    requires SendersOk(h) && Vouched(ps, h)
    requires HolesExact(ps, e) && Maxima(ps, e) && CommitExact(ps, e) && EvsInv(r, e, h)
    requires DiscardEvs(r, E.CommitSet(e)).Go?
    ensures SenderFinished(DiscardEvs(r, E.CommitSet(e)).value.all, h, E.CommitSet(e), id)
  {
    var commit := E.CommitSet(e);
    var log := DiscardEvs(r, commit).value.all;
    assert r.holes == HoleSet(e) && e.highest <= r.win.highest;
    assert forall x :: x in commit <==> x in e.commit;
    hide *;
    FinishCanonical(r, e, commit, h);
    var last := r.win.highest;
    var c := Cut(h, r.holes, e.aru + 1, last);
    forall x
      ensures Orderly(Stream(log), x) <= Orderly(h, x)
      ensures x in commit ==> Orderly(Stream(log), x) == Orderly(h, x)
    {
      if x in commit {
        CommitHasNoHoles(ps, h, e, x);
        AboveMore(h, e.highest, last, x);
      }
      FinishOfSender(log, h, r.holes, commit, c, last, x);
    }
    FinishSorts(log, h);
    SenderFinishes(log, h, commit, id);
  }

  lemma AboveMore(h: seq<Packet>, last: int, more: int, id: int)
    requires NothingAbove(h, last, id) && last <= more
    ensures NothingAbove(h, more, id)
  {
  }

  // ----- from a run of the ring to the next membership

  lemma MembersVouch(s: R.Sys, chosen: seq<nat>, commits: seq<seq<int>>)
    requires SourcesOk(s) && E.Chosen(s, chosen, commits)
    requires forall k, x :: 0 <= k < |commits| && x in commits[k] ==> x == s.ring[chosen[k]].daemon.id
    ensures Vouched(E.Visited(s, chosen, commits), s.history)
  {
    hide Keeps, SendersOk, Supplied;
    var ps := E.Visited(s, chosen, commits);
    forall k, x | 0 <= k < |ps| && (x == ps[k].id || x in ps[k].commit)
      ensures Keeps(ps[k].win, s.history, x)
    {
      assert MemberSends(s.ring[chosen[k]].daemon, s.history);
    }
  }

  /** What a daemon takes into the next membership: its queue, rewound to the start of the message
      that was being sent. */
  function Rewound(q: Queue): Queue {
    q.(cur := 0)
  }

  /** A new ring on which this daemon has sent nothing goes on from the start of a message. Without
      the rewinding its first packet there would be one from the middle of a message. */
  lemma RewoundExactly(d: Daemon)
    requires QueueOk(d.queue)
    ensures Supplied(d, []) <==> d.queue == Rewound(d.queue)
  {
    assert Own([], d.id) == [];
    if d.queue.messages != [] {
      assert |InFlight(d.queue)| == d.queue.cur;
    }
  }

  /** Between what is handed up in the old membership and what is queued for the next, nothing that
      was handed in is lost, split or sent twice, and the next one starts at the start of a message. */
  ghost predicate CarriedOver(trace: seq<R.Sys>, steps: seq<R.Step>, i: nat, b: nat, log: seq<Delivery>)
    requires IndexOk(trace, steps, i, b, b)
  {
    var d := trace[i].ring[b].daemon;
    && HandUp(Stream(log)).Go?
    && MessagesOf(HandUp(Stream(log)).value.handed, d.id) + Regular(Rewound(d.queue).messages)
       == Regular(Accepted(trace, steps, i, d.id))
    && Supplied(d.(queue := Rewound(d.queue)), [])
  }

  /** Take any moment of a run, let the form token visit any members of the ring, and let any
      daemon finish the recovery that follows. It has met no sequence error, and for each of the
      members visited, what it has handed up together with what that member still has to send is
      exactly what that member's clients have handed in. */
  lemma NothingIsLostOrSplit(trace: seq<R.Sys>, steps: seq<R.Step>, l: R.Limits, i: nat,
                             chosen: seq<nat>, commits: seq<seq<int>>, r: Recovering, k: nat)
    requires R.Driven(trace, steps, l) && R.LimitsOk(l) && R.HarmlessStart(trace[0])
    requires i < |trace| == |steps| + 1 && AllUp(trace)
    requires E.Chosen(trace[i], chosen, commits) && k < |chosen|
    requires forall j, x :: 0 <= j < |commits| && x in commits[j] ==> x == trace[i].ring[chosen[j]].daemon.id
    requires
      var ps := E.Visited(trace[i], chosen, commits);
      FormToken.Entry(ps).Go? && EvsInv(r, FormToken.Entry(ps).value, trace[i].history)
      && DiscardEvs(r, E.CommitSet(FormToken.Entry(ps).value)).Go?
    ensures
      var e := FormToken.Entry(E.Visited(trace[i], chosen, commits)).value;
      CarriedOver(trace, steps, i, chosen[k], DiscardEvs(r, E.CommitSet(e)).value.all)
  {
    var s := trace[i];
    var ps := E.Visited(s, chosen, commits);
    var b := chosen[k];
    assert b < |s.ring| && ps[k].id == s.ring[b].daemon.id;
    hide *;
    RunSources(trace, steps, l, i);
    SourcesMeans(s);
    MembersVouch(s, chosen, commits);
    E.RunIsOldRing(s, chosen, commits);
    EntryExact(ps, s.history);
    var e := FormToken.Entry(ps).value;
    InCommit(ps, e, k);
    RecoveryIsWhole(ps, s.history, e, r, ps[k].id);
    SendersAreFaithful(trace, steps, l, i, b);
    Carried(trace, steps, i, b, DiscardEvs(r, E.CommitSet(e)).value.all, E.CommitSet(e));
  }

  lemma SourcesMeans(s: R.Sys)
    requires SourcesOk(s)
    ensures s.Up? && SendersOk(s.history)
    ensures forall b :: 0 <= b < |s.ring| ==> QueueOk(s.ring[b].daemon.queue)
  {
    assert forall b :: 0 <= b < |s.ring| ==> MemberSends(s.ring[b].daemon, s.history);
  }

  lemma InCommit(ps: seq<Participant>, e: RingInfo, k: nat)
    requires CommitExact(ps, e) && k < |ps|
    ensures ps[k].id in E.CommitSet(e)
  {
    assert e.commit[k] == ps[k].id;
  }

  lemma Carried(trace: seq<R.Sys>, steps: seq<R.Step>, i: nat, b: nat, log: seq<Delivery>, commit: set<int>)
    requires IndexOk(trace, steps, i, b, b) && Faithful(trace, steps, i, b)
    requires SenderFinished(log, trace[i].history, commit, trace[i].ring[b].daemon.id)
    requires trace[i].ring[b].daemon.id in commit && QueueOk(trace[i].ring[b].daemon.queue)
    ensures CarriedOver(trace, steps, i, b, log)
  {
    var d := trace[i].ring[b].daemon;
    hide Regular, Own, Assemble, HandUp, MessagesOf, Accepted, Supplied, QueueOk;
    RegularConcat(Assemble(Own(trace[i].history, d.id)).value.done, d.queue.messages);
    RewoundSupplies(d);
  }

  lemma RewoundSupplies(d: Daemon)
    requires QueueOk(d.queue)
    ensures Supplied(d.(queue := Rewound(d.queue)), [])
  {
    RewoundExactly(d.(queue := Rewound(d.queue)));
  }
}

/** Messages above packets: Deliver_packet puts the packets of each sender together again, and what
    comes out is what the sender's clients handed in, whole, once and in order. */
module Atomicity {
  import opened Outcomes
  import opened Protocol
  import opened Ring
  import W = WindowInvariant
  import T = RingTheorems

  // ----- Deliver_packet

  /** An entry of Up_queue: one for each sender, and the one at MAX_PROCS_RING that single-packet
      RELIABLE messages pass through. */
  datatype Entry = From(sender: int) | Shared

  datatype Handed = Handed(sender: int, message: Message)

  /** The messages being put together, and those already handed to the session layer. */
  datatype Upward = Upward(queues: map<Entry, seq<Bytes>>, handed: seq<Handed>)

  function EntryFor(p: Packet): Entry {
    if Early(p) then Shared else From(p.sender)
  }

  function Parts(u: Upward, e: Entry): seq<Bytes> {
    if e in u.queues then u.queues[e] else []
  }

  function Deliver(u: Upward, p: Packet): Outcome<Upward> {
    var e := EntryFor(p);
    var parts := Parts(u, e);
    var index := if p.index < 0 then -p.index else p.index;
    if |parts| + 1 != index then
      Exit("Deliver_packet: sequence error")
    else if p.index < 0 then
      Go(Upward(u.queues - {e}, u.handed + [Handed(p.sender, Message(p.service, parts + [p.body]))]))
    else
      Go(u.(queues := u.queues[e := parts + [p.body]]))
  }

  function HandUp(ps: seq<Packet>): Outcome<Upward> {
    if ps == [] then Go(Upward(map[], []))
    else
      var u :- HandUp(ps[..|ps| - 1]);
      Deliver(u, ps[|ps| - 1])
  }

  function Stream(log: seq<Delivery>): (ps: seq<Packet>)
    ensures |ps| == |log|
    ensures forall i :: 0 <= i < |log| ==> ps[i] == log[i].packet
  {
    seq(|log|, i requires 0 <= i < |log| => log[i].packet)
  }

  // ----- one sender

  /** What the packets of one sender amount to: whole messages, and the parts of the next. */
  datatype Track = Track(done: seq<Message>, part: seq<Bytes>)

  function Extend(t: Track, p: Packet): Outcome<Track> {
    var index := if p.index < 0 then -p.index else p.index;
    if |t.part| + 1 != index then Exit("sequence error")
    else if p.index < 0 then Go(Track(t.done + [Message(p.service, t.part + [p.body])], []))
    else Go(Track(t.done, t.part + [p.body]))
  }

  function Assemble(ps: seq<Packet>): Outcome<Track> {
    if ps == [] then Go(Track([], []))
    else
      var t :- Assemble(ps[..|ps| - 1]);
      Extend(t, ps[|ps| - 1])
  }

  /** The packets of one sender. */
  function Own(ps: seq<Packet>, id: int): seq<Packet> {
    if ps == [] then []
    else
      var p := ps[|ps| - 1];
      Own(ps[..|ps| - 1], id) + (if p.sender == id then [p] else [])
  }

  /** The packets of one sender that are delivered in order. */
  function Orderly(ps: seq<Packet>, id: int): seq<Packet> {
    if ps == [] then []
    else
      var p := ps[|ps| - 1];
      Orderly(ps[..|ps| - 1], id) + (if p.sender == id && !Early(p) then [p] else [])
  }

  predicate Single(m: Message) {
    m.service.Reliable? && |m.parts| == 1
  }

  /** All but the single-packet RELIABLE messages. */
  function Regular(ms: seq<Message>): seq<Message> {
    if ms == [] then []
    else
      var m := ms[|ms| - 1];
      Regular(ms[..|ms| - 1]) + (if Single(m) then [] else [m])
  }

  /** Those among them that one sender's clients get to see as `id`'s. */
  function MessagesOf(handed: seq<Handed>, id: int): seq<Message> {
    if handed == [] then []
    else
      var x := handed[|handed| - 1];
      MessagesOf(handed[..|handed| - 1], id) + (if x.sender == id && !Single(x.message) then [x.message] else [])
  }

  /** The same for all senders together. */
  function InOrder(handed: seq<Handed>): seq<Handed> {
    if handed == [] then []
    else
      var x := handed[|handed| - 1];
      InOrder(handed[..|handed| - 1]) + (if Single(x.message) then [] else [x])
  }

  // ----- adding one at the end

  lemma Last<X>(s: seq<X>, x: X)
    ensures (s + [x])[..|s + [x]| - 1] == s && (s + [x])[|s + [x]| - 1] == x
  {
  }

  lemma OwnAppend(ps: seq<Packet>, p: Packet, id: int)
    ensures Own(ps + [p], id) == Own(ps, id) + (if p.sender == id then [p] else [])
  {
    Last(ps, p);
  }

  lemma AssembleAppend(ps: seq<Packet>, p: Packet)
    requires Assemble(ps).Go?
    ensures Assemble(ps + [p]) == Extend(Assemble(ps).value, p)
  {
    Last(ps, p);
  }

  lemma HandedAppend(hs: seq<Handed>, x: Handed, id: int)
    ensures MessagesOf(hs + [x], id) == MessagesOf(hs, id) + (if x.sender == id && !Single(x.message) then [x.message] else [])
    ensures InOrder(hs + [x]) == InOrder(hs) + (if Single(x.message) then [] else [x])
  {
    Last(hs, x);
  }

  lemma RegularAppend(ms: seq<Message>, m: Message)
    ensures Regular(ms + [m]) == Regular(ms) + (if Single(m) then [] else [m])
  {
    Last(ms, m);
  }

  lemma {:induction false} OwnConcat(ps: seq<Packet>, qs: seq<Packet>, id: int)
    ensures Own(ps + qs, id) == Own(ps, id) + Own(qs, id)
    decreases |qs|
  {
    if qs == [] {
      assert ps + qs == ps;
    } else {
      var n := |qs| - 1;
      OwnConcat(ps, qs[..n], id);
      assert ps + qs == (ps + qs[..n]) + [qs[n]];
      OwnAppend(ps + qs[..n], qs[n], id);
    }
  }

  lemma OwnPrefix(ps: seq<Packet>, n: nat, id: int)
    requires n <= |ps|
    ensures Own(ps[..n], id) <= Own(ps, id)
  {
    assert ps == ps[..n] + ps[n..];
    OwnConcat(ps[..n], ps[n..], id);
  }

  lemma {:induction false} RegularConcat(ms: seq<Message>, ns: seq<Message>)
    ensures Regular(ms + ns) == Regular(ms) + Regular(ns)
    decreases |ns|
  {
    if ns == [] {
      assert ms + ns == ms;
    } else {
      var n := |ns| - 1;
      RegularConcat(ms, ns[..n]);
      assert ms + ns == (ms + ns[..n]) + [ns[n]];
      RegularAppend(ms + ns[..n], ns[n]);
    }
  }

  /** Fewer packets of a sender amount to fewer of its messages, never to a sequence error. */
  lemma {:induction false} AssemblePrefix(ps: seq<Packet>, qs: seq<Packet>)
    requires ps <= qs && Assemble(qs).Go?
    ensures Assemble(ps).Go? && Assemble(ps).value.done <= Assemble(qs).value.done
    decreases |qs|
  {
    if |ps| < |qs| {
      AssemblePrefix(ps, qs[..|qs| - 1]);
    } else {
      assert ps == qs;
    }
  }

  /** An early packet is a whole message between other whole messages. */
  lemma ExtendRegular(t: Track, p: Packet)
    requires Extend(t, p).Go?
    ensures
      var e := Extend(t, p).value;
      if Early(p) then Regular(e.done) == Regular(t.done) && e.part == t.part
      else Extend(Track(Regular(t.done), t.part), p) == Go(Track(Regular(e.done), e.part))
  {
    if p.index < 0 {
      RegularAppend(t.done, Message(p.service, t.part + [p.body]));
      assert Regular(t.done) + [] == Regular(t.done);
    }
  }

  lemma {:induction false} WithoutEarly(ps: seq<Packet>, id: int)
    requires Assemble(Own(ps, id)).Go?
    ensures
      var t := Assemble(Own(ps, id)).value;
      Assemble(Orderly(ps, id)) == Go(Track(Regular(t.done), t.part))
  {
    hide Extend, Regular, Assemble;
    if ps == [] {
      EmptyAssembles();
    } else {
      var rest, p := ps[..|ps| - 1], ps[|ps| - 1];
      assert Own(ps, id) == Own(rest, id) + (if p.sender == id then [p] else []);
      assert Orderly(ps, id) == Orderly(rest, id) + (if p.sender == id && !Early(p) then [p] else []);
      if p.sender == id {
        AssemblePrefix(Own(rest, id), Own(ps, id));
        WithoutEarly(rest, id);
        AssembleAppend(Own(rest, id), p);
        AssembleAppend(Orderly(rest, id), p);
        ExtendRegular(Assemble(Own(rest, id)).value, p);
        assert Early(p) ==> Orderly(ps, id) == Orderly(rest, id);
      } else {
        assert Own(ps, id) == Own(rest, id) && Orderly(ps, id) == Orderly(rest, id);
        WithoutEarly(rest, id);
      }
    }
  }

  lemma EmptyAssembles()
    ensures Assemble([]) == Go(Track([], [])) && Regular([]) == []
  {
  }

  // ----- from one sender to all

  ghost predicate EverySender(ps: seq<Packet>) {
    forall id :: Assemble(Orderly(ps, id)).Go?
  }

  /** The upward queues hold exactly what each sender's ordered packets amount to. */
  ghost predicate Sorted(ps: seq<Packet>, u: Upward) {
    && Shared !in u.queues
    && forall id :: Assemble(Orderly(ps, id)) == Go(Track(MessagesOf(u.handed, id), Parts(u, From(id))))
  }

  lemma SortedAppend(ps: seq<Packet>, p: Packet, u: Upward)
    requires Sorted(ps, u) && EverySender(ps + [p])
    ensures Deliver(u, p).Go? && Sorted(ps + [p], Deliver(u, p).value)
  {
    Last(ps, p);
    hide EverySender, Assemble;
    assert Assemble(Orderly(ps, p.sender)).Go?;
    OrderlyAssembles(ps, p);
    DeliverGoes(ps, p, u);
    var e := Deliver(u, p).value;
    forall id
      ensures Assemble(Orderly(ps + [p], id)) == Go(Track(MessagesOf(e.handed, id), Parts(e, From(id))))
    {
      DeliverOne(ps, p, u, id);
    }
  }

  lemma OrderlyAssembles(ps: seq<Packet>, p: Packet)
    requires EverySender(ps + [p]) && Assemble(Orderly(ps, p.sender)).Go?
    ensures !Early(p) ==> Extend(Assemble(Orderly(ps, p.sender)).value, p).Go?
  {
    hide Extend;
    Last(ps, p);
    assert Assemble(Orderly(ps + [p], p.sender)).Go?;
    if !Early(p) {
      AssembleAppend(Orderly(ps, p.sender), p);
    }
  }

  lemma DeliverGoes(ps: seq<Packet>, p: Packet, u: Upward)
    requires Sorted(ps, u)
    requires !Early(p) ==> Assemble(Orderly(ps, p.sender)).Go? && Extend(Assemble(Orderly(ps, p.sender)).value, p).Go?
    ensures Deliver(u, p).Go? && Shared !in Deliver(u, p).value.queues
  {
    hide Assemble, Orderly, MessagesOf;
    assert Assemble(Orderly(ps, p.sender)) == Go(Track(MessagesOf(u.handed, p.sender), Parts(u, From(p.sender))));
  }

  lemma DeliverOne(ps: seq<Packet>, p: Packet, u: Upward, id: int)
    requires Sorted(ps, u) && Deliver(u, p).Go?
    ensures
      var e := Deliver(u, p).value;
      Assemble(Orderly(ps + [p], id)) == Go(Track(MessagesOf(e.handed, id), Parts(e, From(id))))
  {
    var e := Deliver(u, p).value;
    assert Assemble(Orderly(ps, id)) == Go(Track(MessagesOf(u.handed, id), Parts(u, From(id))));
    hide Assemble, MessagesOf, Sorted;
    Last(ps, p);
    if p.sender == id && !Early(p) {
      AssembleAppend(Orderly(ps, id), p);
      DeliverToSender(u, p);
    } else {
      assert Orderly(ps + [p], id) == Orderly(ps, id);
      DeliverElsewhere(u, p, id);
    }
  }

  lemma DeliverToSender(u: Upward, p: Packet)
    requires !Early(p) && Deliver(u, p).Go?
    ensures
      var e := Deliver(u, p).value;
      Extend(Track(MessagesOf(u.handed, p.sender), Parts(u, From(p.sender))), p)
      == Go(Track(MessagesOf(e.handed, p.sender), Parts(e, From(p.sender))))
  {
    hide MessagesOf;
    var e := Deliver(u, p).value;
    if p.index < 0 {
      HandedAppend(u.handed, e.handed[|u.handed|], p.sender);
    }
  }

  lemma DeliverElsewhere(u: Upward, p: Packet, id: int)
    requires Shared !in u.queues && (Early(p) || p.sender != id) && Deliver(u, p).Go?
    ensures
      var e := Deliver(u, p).value;
      MessagesOf(e.handed, id) == MessagesOf(u.handed, id) && Parts(e, From(id)) == Parts(u, From(id))
  {
    hide MessagesOf;
    var e := Deliver(u, p).value;
    if p.index < 0 {
      HandedAppend(u.handed, e.handed[|u.handed|], id);
      assert MessagesOf(u.handed, id) + [] == MessagesOf(u.handed, id);
    }
  }

  lemma EverySenderBefore(ps: seq<Packet>)
    requires ps != [] && EverySender(ps)
    ensures EverySender(ps[..|ps| - 1])
  {
    var rest := ps[..|ps| - 1];
    forall id
      ensures Assemble(Orderly(rest, id)).Go?
    {
      assert Assemble(Orderly(ps, id)).Go?;
      AssemblePrefix(Orderly(rest, id), Orderly(ps, id));
    }
  }

  lemma {:induction false} HandUpSorts(ps: seq<Packet>)
    requires EverySender(ps)
    ensures HandUp(ps).Go? && Sorted(ps, HandUp(ps).value)
  {
    if ps != [] {
      EverySenderBefore(ps);
      HandUpSorts(ps[..|ps| - 1]);
      assert ps == ps[..|ps| - 1] + [ps[|ps| - 1]];
      hide EverySender, Sorted, Deliver;
      SortedAppend(ps[..|ps| - 1], ps[|ps| - 1], HandUp(ps[..|ps| - 1]).value);
    }
  }

  // ----- the order across senders

  function NotEarly(ps: seq<Packet>): seq<Packet> {
    if ps == [] then []
    else
      var p := ps[|ps| - 1];
      NotEarly(ps[..|ps| - 1]) + (if Early(p) then [] else [p])
  }

  /** Two ways of putting packets together that differ in early messages only. */
  ghost predicate SameButEarly(u: Upward, v: Upward) {
    u.queues == v.queues && Shared !in u.queues && InOrder(u.handed) == v.handed
  }

  lemma SameDeliver(u: Upward, v: Upward, p: Packet)
    requires SameButEarly(u, v) && Deliver(u, p).Go?
    ensures Early(p) ==> SameButEarly(Deliver(u, p).value, v)
    ensures !Early(p) ==> Deliver(v, p).Go? && SameButEarly(Deliver(u, p).value, Deliver(v, p).value)
  {
    var e := Deliver(u, p).value;
    if p.index < 0 {
      HandedAppend(u.handed, e.handed[|u.handed|], p.sender);
      if Early(p) {
        assert e.queues == v.queues;
        assert InOrder(u.handed) + [] == InOrder(u.handed);
      }
    }
  }

  lemma {:induction false} HandUpInOrder(ps: seq<Packet>)
    requires HandUp(ps).Go?
    ensures HandUp(NotEarly(ps)).Go? && SameButEarly(HandUp(ps).value, HandUp(NotEarly(ps)).value)
  {
    if ps != [] {
      var rest, p := ps[..|ps| - 1], ps[|ps| - 1];
      HandUpInOrder(rest);
      hide Deliver, SameButEarly;
      SameDeliver(HandUp(rest).value, HandUp(NotEarly(rest)).value, p);
      if Early(p) {
        assert NotEarly(ps) == NotEarly(rest);
      } else {
        Last(NotEarly(rest), p);
        assert NotEarly(ps) == NotEarly(rest) + [p];
      }
    }
  }

  lemma {:induction false} HandUpPrefix(ps: seq<Packet>, qs: seq<Packet>)
    requires ps <= qs && HandUp(qs).Go?
    ensures HandUp(ps).Go? && HandUp(ps).value.handed <= HandUp(qs).value.handed
    decreases |qs|
  {
    if |ps| < |qs| {
      HandUpPrefix(ps, qs[..|qs| - 1]);
    } else {
      assert ps == qs;
    }
  }

  lemma {:induction false} NotEarlyStream(log: seq<Delivery>)
    ensures NotEarly(Stream(log)) == Stream(W.Ordered(log))
  {
    if log != [] {
      NotEarlyStream(log[..|log| - 1]);
      assert Stream(log)[..|log| - 1] == Stream(log[..|log| - 1]);
    }
  }

  /** Two logs whose ordered deliveries are comparable hand up comparable messages. */
  lemma SameMessageOrder(log: seq<Delivery>, log': seq<Delivery>)
    requires HandUp(Stream(log)).Go? && HandUp(Stream(log')).Go?
    requires W.Ordered(log) <= W.Ordered(log')
    ensures InOrder(HandUp(Stream(log)).value.handed) <= InOrder(HandUp(Stream(log')).value.handed)
  {
    hide HandUp, InOrder, W.Ordered, NotEarly;
    HandUpInOrder(Stream(log));
    HandUpInOrder(Stream(log'));
    NotEarlyStream(log);
    NotEarlyStream(log');
    assert Stream(W.Ordered(log)) <= Stream(W.Ordered(log'));
    HandUpPrefix(Stream(W.Ordered(log)), Stream(W.Ordered(log')));
  }

  // ----- from the order of the ring to one daemon's log

  lemma {:induction false} OrderlyOrdered(log: seq<Delivery>, id: int)
    ensures Orderly(Stream(log), id) == Orderly(Stream(W.Ordered(log)), id)
  {
    if log != [] {
      var n := |log| - 1;
      OrderlyOrdered(log[..n], id);
      assert Stream(log)[..n] == Stream(log[..n]);
      if !Early(log[n].packet) {
        assert Stream(W.Ordered(log))[..|W.Ordered(log)| - 1] == Stream(W.Ordered(log[..n]));
      } else {
        assert W.Ordered(log[..n]) + [] == W.Ordered(log[..n]);
      }
    }
  }

  lemma {:induction false} OrderlyPrefix(h: seq<Packet>, n: nat, id: int)
    requires n <= |h|
    ensures Orderly(Stream(W.OrderedPrefix(h, n)), id) == Orderly(h[..n], id)
  {
    if n > 0 {
      OrderlyPrefix(h, n - 1, id);
      assert h[..n][..n - 1] == h[..n - 1];
      var ds, p := W.OrderedPrefix(h, n - 1), h[n - 1];
      if !Early(p) {
        assert Stream(ds + [Delivery(n, p)])[..|ds|] == Stream(ds);
      } else {
        assert ds + [] == ds;
      }
    }
  }

  ghost predicate SendersOk(h: seq<Packet>) {
    forall id :: Assemble(Own(h, id)).Go?
  }

  /** What daemon w hands up is, sender by sender, what the packets it has delivered amount to. */
  lemma LogHandsUp(log: seq<Delivery>, h: seq<Packet>, n: nat, id: int)
    requires n <= |h| && W.Ordered(log) == W.OrderedPrefix(h, n) && SendersOk(h)
    ensures HandUp(Stream(log)).Go? && Assemble(Own(h[..n], id)).Go?
    ensures
      var u, t := HandUp(Stream(log)).value, Assemble(Own(h[..n], id)).value;
      MessagesOf(u.handed, id) == Regular(t.done) && Parts(u, From(id)) == t.part
  {
    hide HandUp, Assemble, Own, Orderly, W.Ordered, W.OrderedPrefix, MessagesOf, Regular, Parts;
    forall x
      ensures Assemble(Own(h[..n], x)).Go?
      ensures Assemble(Orderly(Stream(log), x))
              == Go(Track(Regular(Assemble(Own(h[..n], x)).value.done), Assemble(Own(h[..n], x)).value.part))
    {
      assert Assemble(Own(h, x)).Go?;
      OwnPrefix(h, n, x);
      AssemblePrefix(Own(h[..n], x), Own(h, x));
      WithoutEarly(h[..n], x);
      OrderlyOrdered(log, x);
      OrderlyPrefix(h, n, x);
    }
    HandUpSorts(Stream(log));
    var u := HandUp(Stream(log)).value;
    assert Assemble(Orderly(Stream(log), id)) == Go(Track(MessagesOf(u.handed, id), Parts(u, From(id))));
  }
}

/** The list of time events: one per function, code and data, ordered by deadline. */
module Timers {

  /** Seconds and microseconds. */
  datatype Time = Time(sec: int, usec: int)

  /** What an event is known by: its function, code and data. */
  datatype Key = Key(func: int, code: int, data: int)

  datatype Event = Event(t: Time, key: Key)

  const MILLION := 1000000

  function Micros(t: Time): int {
    t.sec * MILLION + t.usec
  }

  /** A clock reading, or a timeout. */
  predicate Normal(t: Time) {
    0 <= t.usec < MILLION
  }

  /** E_add_time. */
  function AddTime(t: Time, d: Time): Time {
    if t.usec + d.usec > MILLION then Time(t.sec + d.sec + 1, t.usec + d.usec - MILLION)
    else Time(t.sec + d.sec, t.usec + d.usec)
  }

  /** E_compare_time. */
  function Compare(a: Time, b: Time): int {
    if a.sec > b.sec then 1
    else if a.sec < b.sec then -1
    else if a.usec > b.usec then 1
    else if a.usec < b.usec then -1
    else 0
  }

  predicate Deadline(t: Time) {
    0 <= t.usec <= MILLION
  }

  /** The sum is exact; it is a proper time again unless the microseconds add up to exactly one
      second, which the code leaves in the microseconds. */
  lemma AddTimeExact(t: Time, d: Time)
    requires 0 <= t.usec < MILLION && 0 <= d.usec < MILLION
    ensures Micros(AddTime(t, d)) == Micros(t) + Micros(d) && Deadline(AddTime(t, d))
    ensures Normal(t) && Normal(d) && (Normal(AddTime(t, d)) <==> t.usec + d.usec != MILLION)
  {
  }

  /** On deadlines the comparison follows the real order, except that the same instant written in
      two ways counts as two. */
  lemma CompareExact(a: Time, b: Time)
    requires Deadline(a) && Deadline(b)
    ensures Compare(a, b) == 0 <==> a == b
    ensures Micros(a) < Micros(b) ==> Compare(a, b) < 0
    ensures Compare(a, b) < 0 ==> Micros(a) <= Micros(b)
    ensures Compare(a, b) < 0 && Micros(a) == Micros(b) <==> a.usec == MILLION && b == Time(a.sec + 1, 0)
  {
  }

  // ----- the list

  ghost predicate Sorted(q: seq<Event>) {
    forall i, j :: 0 <= i < j < |q| ==> Compare(q[i].t, q[j].t) <= 0
  }

  ghost predicate UniqueKeys(q: seq<Event>) {
    forall i, j :: 0 <= i < j < |q| ==> q[i].key != q[j].key
  }

  function Without(q: seq<Event>, k: Key): seq<Event> {
    if q == [] then []
    else if q[0].key == k then q[1..]
    else [q[0]] + Without(q[1..], k)
  }

  /** Behind everything that is not later. */
  function Insert(q: seq<Event>, e: Event): seq<Event> {
    if q == [] then [e]
    else if Compare(e.t, q[0].t) < 0 then [e] + q
    else [q[0]] + Insert(q[1..], e)
  }

  function Enqueue(q: seq<Event>, e: Event): seq<Event> {
    Insert(Without(q, e.key), e)
  }

  lemma {:induction false} WithoutFacts(q: seq<Event>, k: Key)
    requires Sorted(q) && UniqueKeys(q)
    ensures Sorted(Without(q, k)) && UniqueKeys(Without(q, k))
    ensures forall e :: e in Without(q, k) <==> e in q && e.key != k
  {
    hide Compare, Sorted, UniqueKeys;
    if q != [] {
      Tail(q);
      WithoutFacts(q[1..], k);
      if q[0].key != k {
        Front(q[0], Without(q[1..], k));
      }
    }
  }

  lemma Front(e: Event, q: seq<Event>)
    requires Sorted(q) && UniqueKeys(q) && forall x :: x in q ==> Compare(e.t, x.t) <= 0 && x.key != e.key
    ensures Sorted([e] + q) && UniqueKeys([e] + q)
    ensures forall x :: x in [e] + q <==> x == e || x in q
  {
    hide Compare;
    assert forall i :: 0 <= i < |q| ==> q[i] in q;
  }

  /** Nothing after e is due as early as e. */
  ghost predicate LastOfItsTime(q: seq<Event>, e: Event) {
    forall i, j :: 0 <= i < j < |q| && q[i] == e ==> Compare(e.t, q[j].t) < 0
  }

  lemma Tail(q: seq<Event>)
    requires q != [] && Sorted(q) && UniqueKeys(q)
    ensures Sorted(q[1..]) && UniqueKeys(q[1..])
    ensures forall x :: x in q <==> x == q[0] || x in q[1..]
    ensures forall x :: x in q[1..] ==> Compare(q[0].t, x.t) <= 0 && x.key != q[0].key
  {
    hide Compare;
    var rest := q[1..];
    assert forall i :: 0 <= i < |rest| ==> rest[i] == q[i + 1];
    assert forall i :: 0 < i < |q| ==> q[i] == rest[i - 1];
  }

  lemma CompareTrans(a: Time, b: Time, c: Time)
    ensures Compare(a, b) < 0 && Compare(b, c) <= 0 ==> Compare(a, c) < 0
    ensures Compare(a, b) >= 0 ==> Compare(b, a) <= 0
  {
  }

  lemma FrontLast(e: Event, q: seq<Event>)
    requires forall x :: x in q ==> Compare(e.t, x.t) < 0
    requires forall x :: x in q ==> x.key != e.key
    ensures LastOfItsTime([e] + q, e)
  {
    hide Compare;
    assert forall i :: 0 <= i < |q| ==> q[i] in q && ([e] + q)[i + 1] == q[i];
  }

  lemma BehindLast(x: Event, q: seq<Event>, e: Event)
    requires LastOfItsTime(q, e) && x.key != e.key
    ensures LastOfItsTime([x] + q, e)
  {
    hide Compare;
    assert forall i :: 0 <= i < |q| ==> ([x] + q)[i + 1] == q[i];
  }

  /** Inserting keeps the order and puts the event behind all that are due no later. */
  lemma {:induction false} InsertFacts(q: seq<Event>, e: Event)
    requires Sorted(q) && UniqueKeys(q) && forall x :: x in q ==> x.key != e.key
    ensures Sorted(Insert(q, e)) && UniqueKeys(Insert(q, e))
    ensures forall x :: x in Insert(q, e) <==> x == e || x in q
    ensures Without(Insert(q, e), e.key) == q
    ensures LastOfItsTime(Insert(q, e), e)
  {
    hide Compare, Sorted, UniqueKeys, LastOfItsTime;
    if q == [] {
      Front(e, []);
      FrontLast(e, []);
      assert [e] + [] == [e] && [e][1..] == [];
    } else {
      Tail(q);
      var rest := q[1..];
      if Compare(e.t, q[0].t) < 0 {
        forall x | x in q ensures Compare(e.t, x.t) < 0 {
          CompareTrans(e.t, q[0].t, x.t);
        }
        Front(e, q);
        FrontLast(e, q);
        assert ([e] + q)[1..] == q;
      } else {
        CompareTrans(e.t, q[0].t, e.t);
        InsertFacts(rest, e);
        var r := Insert(rest, e);
        Front(q[0], r);
        BehindLast(q[0], r, e);
        assert ([q[0]] + r)[1..] == r;
        assert [q[0]] + rest == q;
      }
    }
  }

  /** Queueing an event: the list stays in order with at most one event of each kind; the event is
      there with its new deadline, behind everything due no later; all other events keep their
      deadlines and their order. */
  lemma EnqueueExact(q: seq<Event>, e: Event)
    requires Sorted(q) && UniqueKeys(q)
    ensures Sorted(Enqueue(q, e)) && UniqueKeys(Enqueue(q, e))
    ensures e in Enqueue(q, e) && Without(Enqueue(q, e), e.key) == Without(q, e.key)
    ensures LastOfItsTime(Enqueue(q, e), e)
  {
    hide Sorted, UniqueKeys, LastOfItsTime;
    WithoutFacts(q, e.key);
    InsertFacts(Without(q, e.key), e);
  }

  // ----- the loops

  class TimeQueue {
    var events: seq<Event>

    constructor ()
      ensures events == []
    {
      events := [];
    }

    /** E_queue: one walk that both takes out a similar event and finds the place. */
    method Queue(now: Time, delta: Time, key: Key)
      requires Sorted(events) && UniqueKeys(events)
      modifies this
      ensures events == Enqueue(old(events), Event(AddTime(now, delta), key))
      ensures Sorted(events) && UniqueKeys(events)
    {
      hide *;
      var e := Event(AddTime(now, delta), key);
      EnqueueExact(events, e);
      var q, i, inserted, deleted := events, 0, false, false;
      assert q[..0] + q[0..] == q;
      NothingDone(q, e);
      while i < |q| && (!inserted || !deleted)
        invariant 0 <= i <= |q| && events == old(events)
        invariant Enqueue(events, e) == q[..i] + Remaining(q[i..], e, inserted, deleted)
        decreases |q| - i, if inserted then 0 else 1
      {
        RemainingStep(q, i, e, inserted, deleted);
        if !deleted && q[i].key == key {
          q := q[..i] + q[i + 1..];
          deleted := true;
        } else if !inserted && Compare(e.t, q[i].t) < 0 {
          q := q[..i] + [e] + q[i..];
          i := i + 1;
          inserted := true;
        } else {
          i := i + 1;
        }
      }
      Finish(q, i, e, inserted, deleted);
      if !inserted {
        q := q + [e];
      }
      events := q;
    }

    /** E_dequeue. */
    method Dequeue(key: Key) returns (found: bool)
      requires Sorted(events) && UniqueKeys(events)
      modifies this
      ensures events == Without(old(events), key)
      ensures found <==> exists i :: 0 <= i < |old(events)| && old(events)[i].key == key
      ensures Sorted(events) && UniqueKeys(events)
    {
      hide *;
      WithoutFacts(events, key);
      var i := 0;
      WalkStarts(events, key);
      while i < |events|
        invariant 0 <= i <= |events| && events == old(events)
        invariant forall j :: 0 <= j < i ==> events[j].key != key
        invariant Without(events, key) == events[..i] + Without(events[i..], key)
      {
        WalkStep(events, i, key);
        if events[i].key == key {
          events := events[..i] + events[i + 1..];
          return true;
        }
        i := i + 1;
      }
      WalkEnds(events, key);
      return false;
    }
  }

  lemma WalkStarts(q: seq<Event>, k: Key)
    ensures Without(q, k) == q[..0] + Without(q[0..], k)
  {
    assert q[0..] == q;
  }

  lemma WalkStep(q: seq<Event>, i: nat, k: Key)
    requires i < |q|
    ensures q[i].key == k ==> Without(q[i..], k) == q[i + 1..]
    ensures q[i].key != k ==> q[..i] + Without(q[i..], k) == q[..i + 1] + Without(q[i + 1..], k)
  {
    assert q[i..][1..] == q[i + 1..];
    assert q[..i] + ([q[i]] + Without(q[i + 1..], k)) == q[..i + 1] + Without(q[i + 1..], k);
  }

  lemma WalkEnds(q: seq<Event>, k: Key)
    ensures q[..|q|] + Without(q[|q|..], k) == q
  {
    assert q[|q|..] == [];
  }

  /** What is still to be done with the part of the list not yet walked. */
  function Remaining(q: seq<Event>, e: Event, inserted: bool, deleted: bool): seq<Event> {
    var left := if deleted then q else Without(q, e.key);
    if inserted then left else Insert(left, e)
  }

  lemma NothingDone(q: seq<Event>, e: Event)
    ensures Enqueue(q, e) == q[..0] + Remaining(q[0..], e, false, false)
  {
    assert q[0..] == q;
  }

  lemma RemainingStep(q: seq<Event>, i: nat, e: Event, inserted: bool, deleted: bool)
    requires i < |q| && (!inserted || !deleted)
    ensures
      var r := Remaining(q[i..], e, inserted, deleted);
      if !deleted && q[i].key == e.key then
        var q' := q[..i] + q[i + 1..];
        q'[..i] == q[..i] && r == Remaining(q'[i..], e, inserted, true)
      else if !inserted && Compare(e.t, q[i].t) < 0 then
        var q' := q[..i] + [e] + q[i..];
        q[..i] + r == q'[..i + 1] + Remaining(q'[i + 1..], e, true, deleted)
      else q[..i] + r == q[..i + 1] + Remaining(q[i + 1..], e, inserted, deleted)
  {
    var rest := q[i + 1..];
    assert q[i..] == [q[i]] + rest;
    assert q[i..][1..] == rest;
    if !deleted && q[i].key == e.key {
      assert (q[..i] + rest)[i..] == rest;
    } else if !inserted && Compare(e.t, q[i].t) < 0 {
      var q' := q[..i] + [e] + q[i..];
      assert q'[i + 1..] == q[i..] && q'[..i + 1] == q[..i] + [e];
      var left := if deleted then q[i..] else Without(q[i..], e.key);
      assert left[0] == q[i];
    } else {
      var left := if deleted then rest else Without(rest, e.key);
      assert ([q[i]] + left)[1..] == left;
      assert q[..i] + [q[i]] == q[..i + 1];
      assert q[..i] + ([q[i]] + Remaining(rest, e, inserted, deleted)) == q[..i + 1] + Remaining(rest, e, inserted, deleted);
    }
  }

  lemma Finish(q: seq<Event>, i: nat, e: Event, inserted: bool, deleted: bool)
    requires i <= |q| && (i == |q| || (inserted && deleted))
    ensures q[..i] + Remaining(q[i..], e, inserted, deleted) == if inserted then q else q + [e]
  {
    if i == |q| {
      assert q[i..] == [];
      assert q[..i] == q;
    } else {
      assert q[..i] + q[i..] == q;
    }
  }
}

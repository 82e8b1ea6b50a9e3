/** What a session's client gets to read: messages written to its socket piece by piece, whatever
    part of each send the socket takes. */
module Session {

  type Bytes = seq<bv8>

  /** A message as a scatter: header and first data, then further packet bodies. */
  type Message = seq<Bytes>

  const MAX_SESSION_MESSAGES := 1000

  function Flat(m: Message): Bytes {
    if m == [] then [] else m[0] + Flat(m[1..])
  }

  function FlatAll(ms: seq<Message>): Bytes {
    if ms == [] then [] else Flat(ms[0]) + FlatAll(ms[1..])
  }

  /** cur_element and cur_byte: where to go on in the first message of the queue. */
  datatype Place = Place(element: nat, byte: nat)

  predicate PlaceOk(m: Message, p: Place) {
    p.element <= |m| && p.byte <= (if p.element < |m| then |m[p.element]| else 0)
  }

  /** What has not been sent of a message. */
  function From(m: Message, p: Place): Bytes
    requires PlaceOk(m, p)
  {
    if p.element == |m| then [] else m[p.element][p.byte..] + Flat(m[p.element + 1..])
  }

  /** What has not been sent of a queue whose first message is partly sent. */
  function Unsent(ms: seq<Message>, p: Place): Bytes
    requires ms != [] ==> PlaceOk(ms[0], p)
  {
    if ms == [] then [] else From(ms[0], p) + FlatAll(ms[1..])
  }

  /** All that the client has got or is to get. */
  function Stream(wire: Bytes, ms: seq<Message>, p: Place): Bytes
    requires ms != [] ==> PlaceOk(ms[0], p)
  {
    wire + Unsent(ms, p)
  }

  // ----- finding the place

  /** Message_calculate_current_location. */
  function Locate(m: Message, len: nat): (p: Place)
    ensures p.element <= |m|
  {
    if m == [] || len < |m[0]| then Place(0, len)
    else
      var p := Locate(m[1..], len - |m[0]|);
      Place(p.element + 1, p.byte)
  }

  /** After len bytes, exactly the rest of the message is still to come. */
  lemma {:induction false} LocateExact(m: Message, len: nat)
    requires len <= |Flat(m)|
    ensures PlaceOk(m, Locate(m, len)) && From(m, Locate(m, len)) == Flat(m)[len..]
    ensures var p := Locate(m, len); p.element < |m| ==> p.byte < |m[p.element]|
  {
    if m == [] {
    } else if len < |m[0]| {
      assert (m[0] + Flat(m[1..]))[len..] == m[0][len..] + Flat(m[1..]);
    } else {
      LocateExact(m[1..], len - |m[0]|);
      var p := Locate(m[1..], len - |m[0]|);
      assert (m[0] + Flat(m[1..]))[len..] == Flat(m[1..])[len - |m[0]|..];
      if p.element < |m| - 1 {
        assert m[1..][p.element] == m[p.element + 1];
        assert m[1..][p.element + 1..] == m[p.element + 2..];
      }
    }
  }

  method CurrentLocation(m: Message, lenSent: nat) returns (p: Place)
    ensures p == Locate(m, lenSent)
  {
    var i, len := 0, lenSent;
    assert m[0..] == m;
    while i < |m| && len >= |m[i]|
      invariant 0 <= i <= |m| && len >= 0
      invariant Locate(m, lenSent) == var q := Locate(m[i..], len); Place(q.element + i, q.byte)
    {
      assert m[i..][1..] == m[i + 1..];
      len := len - |m[i]|;
      i := i + 1;
    }
    p := Place(i, len);
  }

  // ----- pieces of a message

  lemma {:induction false} FlatAppend(a: Message, b: Message)
    ensures Flat(a + b) == Flat(a) + Flat(b)
  {
    if a == [] {
      assert a + b == b;
    } else {
      assert (a + b)[1..] == a[1..] + b;
      FlatAppend(a[1..], b);
    }
  }

  lemma {:induction false} FlatAllAppend(a: seq<Message>, b: seq<Message>)
    ensures FlatAll(a + b) == FlatAll(a) + FlatAll(b)
  {
    if a == [] {
      assert a + b == b;
    } else {
      assert (a + b)[1..] == a[1..] + b;
      FlatAllAppend(a[1..], b);
    }
  }

  lemma FromSome(m: Message, p: Place, n: nat)
    requires PlaceOk(m, p) && p.element < |m| && p.byte + n <= |m[p.element]|
    ensures From(m, p) == m[p.element][p.byte..][..n] + From(m, Place(p.element, p.byte + n))
  {
    hide Flat;
    var e := m[p.element];
    SplitTail(e, p.byte, n, Flat(m[p.element + 1..]));
  }

  lemma SplitTail(e: Bytes, k: nat, n: nat, later: Bytes)
    requires k + n <= |e|
    ensures e[k..] + later == e[k..][..n] + (e[k + n..] + later)
  {
    assert e[k..] == e[k..][..n] + e[k + n..];
  }

  lemma FromNext(m: Message, p: Place)
    requires PlaceOk(m, p) && p.element < |m|
    ensures PlaceOk(m, Place(p.element + 1, 0))
    ensures From(m, p) == m[p.element][p.byte..] + From(m, Place(p.element + 1, 0))
  {
    var i := p.element;
    if i + 1 < |m| {
      FlatFirst(m, i + 1);
      assert m[i + 1][0..] == m[i + 1];
    } else {
      assert m[i + 1..] == [];
    }
    hide Flat;
  }

  lemma StreamMoves(wire: Bytes, ms: seq<Message>, p: Place, b: Bytes, q: Place)
    requires ms != [] && PlaceOk(ms[0], p) && PlaceOk(ms[0], q) && From(ms[0], p) == b + From(ms[0], q)
    ensures Stream(wire + b, ms, q) == Stream(wire, ms, p)
  {
    hide From, FlatAll, PlaceOk;
    Regroup(wire, b, From(ms[0], q), FlatAll(ms[1..]));
  }

  lemma Regroup(wire: Bytes, a: Bytes, b: Bytes, c: Bytes)
    ensures wire + ((a + b) + c) == (wire + a) + (b + c)
  {
  }

  /** The first n bytes of an element have gone. */
  lemma SentSome(wire: Bytes, ms: seq<Message>, p: Place, n: nat)
    requires ms != [] && PlaceOk(ms[0], p) && p.element < |ms[0]| && p.byte + n <= |ms[0][p.element]|
    ensures
      var b, q := ms[0][p.element][p.byte..], Place(p.element, p.byte + n);
      PlaceOk(ms[0], q) && Stream(wire + b[..n], ms, q) == Stream(wire, ms, p)
  {
    hide Stream, From;
    FromSome(ms[0], p, n);
    StreamMoves(wire, ms, p, ms[0][p.element][p.byte..][..n], Place(p.element, p.byte + n));
  }

  /** An element has gone completely. */
  lemma SentAll(wire: Bytes, ms: seq<Message>, p: Place)
    requires ms != [] && PlaceOk(ms[0], p) && p.element < |ms[0]|
    ensures
      var b, q := ms[0][p.element][p.byte..], Place(p.element + 1, 0);
      PlaceOk(ms[0], q) && Stream(wire + b, ms, q) == Stream(wire, ms, p)
  {
    hide Stream, From;
    FromNext(ms[0], p);
    StreamMoves(wire, ms, p, ms[0][p.element][p.byte..], Place(p.element + 1, 0));
  }

  lemma UnsentAppend(wire: Bytes, ms: seq<Message>, p: Place, m: Message)
    requires ms != [] && PlaceOk(ms[0], p)
    ensures Stream(wire, ms + [m], p) == Stream(wire, ms, p) + Flat(m)
  {
    assert (ms + [m])[1..] == ms[1..] + [m];
    FlatAllAppend(ms[1..], [m]);
    FlatAllOne(m);
    hide Flat, FlatAll, From;
    Behind(wire, From(ms[0], p), FlatAll(ms[1..]), Flat(m));
  }

  lemma FlatAllOne(m: Message)
    ensures FlatAll([m]) == Flat(m)
  {
    assert Flat(m) + FlatAll([]) == Flat(m);
  }

  lemma Behind(wire: Bytes, a: Bytes, b: Bytes, c: Bytes)
    ensures wire + (a + (b + c)) == (wire + (a + b)) + c
  {
  }

  lemma NextMessage(wire: Bytes, ms: seq<Message>, p: Place)
    requires ms != [] && PlaceOk(ms[0], p) && p.element == |ms[0]|
    ensures ms[1..] != [] ==> PlaceOk(ms[1..][0], Place(0, 0))
    ensures Stream(wire, ms, p) == Stream(wire, ms[1..], Place(0, 0))
  {
    var rest := ms[1..];
    assert Unsent(ms, p) == FlatAll(rest) by {
      assert From(ms[0], p) == [];
      assert [] + FlatAll(rest) == FlatAll(rest);
    }
    hide Flat;
    if rest != [] {
      FromStart(rest[0]);
    }
  }

  lemma FromStart(m: Message)
    ensures PlaceOk(m, Place(0, 0)) && From(m, Place(0, 0)) == Flat(m)
  {
    if m != [] {
      assert m[0][0..] == m[0];
    }
  }

  // ----- a session

  /** `wire` is what has reached the client, `accepted` everything given to Sess_write so far. */
  class Session {
    var op: bool
    var queue: seq<Message>
    var place: Place
    var wire: Bytes
    ghost var accepted: Bytes

    ghost predicate Valid()
      reads this
    {
      && |queue| <= MAX_SESSION_MESSAGES
      && (queue != [] ==> PlaceOk(queue[0], place))
      && (op ==> Stream(wire, queue, place) == accepted)
      && wire <= accepted
    }

    constructor ()
      ensures Valid() && op && wire == [] && accepted == []
    {
      op, queue, place, wire, accepted := true, [], Place(0, 0), [], [];
    }

    /** send(): the socket takes any part of the bytes, or fails. */
    method Send(b: Bytes) returns (ret: int)
      modifies `wire
      ensures -1 <= ret <= |b|
      ensures wire == old(wire) + b[..if ret < 0 then 0 else ret]
    {
      ret :| -1 <= ret <= |b|;
      if ret > 0 {
        wire := wire + b[..ret];
      } else {
        assert wire + [] == wire;
      }
    }

    /** Sess_kill. */
    method Kill()
      requires Valid()
      modifies this
      ensures Valid() && !op && wire == old(wire) && accepted == old(accepted)
    {
      op, queue, place := false, [], Place(0, 0);
    }

    /** Send what is left of the first message; stops at the first short send. */
    method SendRest() returns (all: bool)
      requires Valid() && op && queue != []
      modifies `wire, `place
      ensures Valid() && old(wire) <= wire
      ensures all ==> place.element == |queue[0]|
    {
      hide Stream, PlaceOk;
      var m := queue[0];
      PlaceBound(m, place);
      while place.element < |m|
        invariant op && queue == old(queue) && queue[0] == m && accepted == old(accepted)
        invariant PlaceOk(m, place) && place.element <= |m| && Stream(wire, queue, place) == accepted
        invariant old(wire) <= wire
        decreases |m| - place.element
      {
        PlaceBound(m, place);
        var b := m[place.element][place.byte..];
        ghost var before := wire;
        var ret := Send(b);
        if ret == |b| {
          SentAll(before, queue, place);
          assert b[..ret] == b;
          place := Place(place.element + 1, 0);
        } else {
          SentSome(before, queue, place, if ret < 0 then 0 else ret);
          place := Place(place.element, place.byte + if ret < 0 then 0 else ret);
          WireIsPrefix(wire, queue, place);
          return false;
        }
      }
      WireIsPrefix(wire, queue, place);
      return true;
    }

    /** Sess_badger. */
    method Badger()
      requires Valid()
      modifies `wire, `place, `queue
      ensures Valid() && old(wire) <= wire && |queue| <= |old(queue)|
      ensures !op ==> wire == old(wire)
    {
      if !op {
        return;
      }
      hide Stream, PlaceOk;
      var able := true;
      while queue != [] && able
        invariant Valid() && op && accepted == old(accepted) && old(wire) <= wire && |queue| <= |old(queue)|
        decreases |queue|, if able then 1 else 0
      {
        able := SendRest();
        if able {
          NextMessage(wire, queue, place);
          queue, place := queue[1..], Place(0, 0);
        }
      }
    }

    /** Sess_write. Afterwards the message is part of what the client will get, unless the session
        was, or is now, killed. */
    method Write(m: Message)
      requires Valid()
      modifies this
      ensures Valid() && old(wire) <= wire
      ensures !old(op) ==> !op && accepted == old(accepted) && wire == old(wire)
      ensures old(op) && op ==> accepted == old(accepted) + Flat(m)
      ensures old(op) && !op ==> accepted == old(accepted) && |old(queue)| >= MAX_SESSION_MESSAGES
    {
      hide Stream, PlaceOk, Flat;
      if !op {
        return;
      }
      if |queue| >= MAX_SESSION_MESSAGES {
        Kill();
        return;
      }
      if |queue| > 0 {
        Badger();
      }
      if |queue| == 0 {
        NothingQueued(wire, place);
        accepted := accepted + Flat(m);
        SendFirst(m);
      } else {
        UnsentAppend(wire, queue, place, m);
        accepted := accepted + Flat(m);
        queue := queue + [m];
      }
    }

    /** With nothing queued, the message is sent at once, element by element as far as it goes. */
    method SendFirst(m: Message)
      requires op && queue == [] && accepted == wire + Flat(m)
      modifies `wire, `queue, `place
      ensures Valid() && old(wire) <= wire && accepted == old(accepted)
    {
      hide *;
      var sent := 0;
      var i := 0;
      var total := |Flat(m)|;
      StartsWhole(m);
      while i < |m|
        invariant 0 <= i <= |m| && 0 <= sent <= total == |Flat(m)|
        invariant op && queue == [] && accepted == old(accepted) && old(wire) <= wire
        invariant accepted == wire + Flat(m)[sent..] && Flat(m)[sent..] == Flat(m[i..])
      {
        FlatFirst(m, i);
        ghost var before := wire;
        var ret := Send(m[i]);
        SentPart(before, Flat(m), sent, m[i], Flat(m[i + 1..]), if ret < 0 then 0 else ret);
        if ret > 0 {
          sent := sent + ret;
        }
        if ret != |m[i]| {
          break;
        }
        i := i + 1;
      }
      if sent < total {
        LocateExact(m, sent);
        place := CurrentLocation(m, sent);
        queue := [m];
        OnlyMessage(wire, m, place);
        IsValid();
      } else {
        assert wire + Flat(m)[sent..] == wire;
        NothingQueued(wire, place);
        IsValid();
      }
    }

    lemma IsValid()
      requires |queue| <= 1 && (queue != [] ==> PlaceOk(queue[0], place))
      requires Stream(wire, queue, place) == accepted
      ensures Valid()
    {
    }
  }

  lemma StartsWhole(m: Message)
    ensures m[0..] == m && Flat(m)[0..] == Flat(m)
  {
  }

  lemma PlaceBound(m: Message, p: Place)
    requires PlaceOk(m, p)
    ensures p.element <= |m| && (p.element < |m| ==> p.byte <= |m[p.element]|)
  {
  }

  lemma WireIsPrefix(wire: Bytes, ms: seq<Message>, p: Place)
    requires ms != [] ==> PlaceOk(ms[0], p)
    ensures wire <= Stream(wire, ms, p)
  {
  }

  lemma NothingQueued(wire: Bytes, p: Place)
    ensures Stream(wire, [], p) == wire
  {
    assert wire + [] == wire;
  }

  lemma OnlyMessage(wire: Bytes, m: Message, p: Place)
    requires PlaceOk(m, p)
    ensures Stream(wire, [m], p) == wire + From(m, p)
  {
    assert From(m, p) + [] == From(m, p);
  }

  lemma FlatFirst(m: Message, i: nat)
    requires i < |m|
    ensures Flat(m[i..]) == m[i] + Flat(m[i + 1..])
  {
    assert m[i..][1..] == m[i + 1..];
  }

  /** What is left of the whole begins with this element. */
  lemma SentPart(wire: Bytes, all: Bytes, sent: nat, e: Bytes, rest: Bytes, n: nat)
    requires sent <= |all| && all[sent..] == e + rest && n <= |e|
    ensures sent + n <= |all| && (wire + e[..n]) + all[sent + n..] == wire + all[sent..]
    ensures n == |e| ==> all[sent + n..] == rest
  {
    assert all[sent + n..] == all[sent..][n..];
    assert (e + rest)[n..] == e[n..] + rest;
    assert e[..n] + e[n..] == e;
    assert wire + e[..n] + (e[n..] + rest) == wire + ((e[..n] + e[n..]) + rest);
  }
}

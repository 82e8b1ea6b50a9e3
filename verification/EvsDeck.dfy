/** Runs of the recovery token over daemons that stand where they stand: each visit finds the same
    My_aru at the same daemon. Enough to see what an unsound start leads to. */
module EvsDeck {
  import A = AruCore

  /** A daemon: its id, where its My_aru stands (`last` with nothing missing), Set_aru and the aru
      on the token it forwarded last. */
  datatype Card = Card(id: int, level: int, mark: int, prev: int)

  datatype Deck = Deck(cards: seq<Card>, aru: int, lastId: int)

  predicate MayReset(d: Deck)
    requires |d.cards| > 0
  {
    d.aru == d.cards[0].mark || d.lastId == d.cards[0].id || d.aru == 0
  }

  function Turn(d: Deck, last: int): (e: Deck)
    requires |d.cards| > 0
    ensures |e.cards| == |d.cards|
  {
    var x := d.cards[0];
    if MayReset(d) then
      Deck(d.cards[1..] + [Card(x.id, x.level, if x.level < last then x.level else -1, x.level)], x.level, x.id)
    else if d.aru > x.level then
      Deck(d.cards[1..] + [Card(x.id, x.level, x.level, x.level)], x.level, x.id)
    else
      Deck(d.cards[1..] + [Card(x.id, x.level, -1, d.aru)], d.aru, d.lastId)
  }

  function Turns(d: Deck, k: nat, last: int): (e: Deck)
    requires |d.cards| > 0
    ensures |e.cards| == |d.cards|
  {
    if k == 0 then d else Turn(Turns(d, k - 1, last), last)
  }

  lemma {:induction false} TurnsAdd(d: Deck, j: nat, k: nat, last: int)
    requires |d.cards| > 0
    ensures Turns(Turns(d, j, last), k, last) == Turns(d, j + k, last)
  {
    if k > 0 {
      TurnsAdd(d, j, k - 1, last);
    }
  }

  /** The next visit is one after which the holder installs the new membership. */
  predicate Finishing(d: Deck, last: int)
    requires |d.cards| > 0
  {
    d.cards[0].prev == last && Turn(d, last).aru == last
  }

  // ----- a stretch of daemons that let the aru pass

  function Passed(cs: seq<Card>, aru: int): (ps: seq<Card>)
    ensures |ps| == |cs|
    ensures forall i :: 0 <= i < |cs| ==> ps[i] == Card(cs[i].id, cs[i].level, -1, aru)
  {
    seq(|cs|, i requires 0 <= i < |cs| => Card(cs[i].id, cs[i].level, -1, aru))
  }

  predicate LetsPass(c: Card, aru: int, lastId: int, last: int) {
    c.level == last && c.mark != aru && (c.id != lastId || aru == last) && 0 < aru <= last
  }

  lemma PassOne(d: Deck, last: int)
    requires |d.cards| > 0 && LetsPass(d.cards[0], d.aru, d.lastId, last)
    ensures Turn(d, last) == Deck(d.cards[1..] + Passed(d.cards[..1], d.aru), d.aru, d.lastId)
  {
    assert Passed(d.cards[..1], d.aru) == [Card(d.cards[0].id, d.cards[0].level, -1, d.aru)];
  }

  lemma {:induction false} PassMany(d: Deck, k: nat, last: int)
    requires k <= |d.cards| && |d.cards| > 0
    requires forall i :: 0 <= i < k ==> LetsPass(d.cards[i], d.aru, d.lastId, last)
    ensures Turns(d, k, last) == Deck(d.cards[k..] + Passed(d.cards[..k], d.aru), d.aru, d.lastId)
  {
    if k == 0 {
      assert d.cards[0..] + Passed(d.cards[..0], d.aru) == d.cards;
    } else {
      PassMany(d, k - 1, last);
      var e := Turns(d, k - 1, last);
      assert e.cards[0] == d.cards[k - 1];
      PassOne(e, last);
      assert Passed(d.cards[..k - 1], d.aru) + Passed(e.cards[..1], d.aru) == Passed(d.cards[..k], d.aru);
      assert e.cards[1..] == d.cards[k..] + Passed(d.cards[..k - 1], d.aru);
    }
  }

  /** Cards of the same daemons at the same levels. */
  predicate SameCard(c: Card, e: Card) {
    c.id == e.id && c.level == e.level
  }

  /** A holder with packets missing always writes its own level. */
  lemma LowOne(d: Deck, last: int)
    requires |d.cards| > 0 && 0 <= d.cards[0].level < d.aru <= last
    ensures
      var x := d.cards[0];
      Turn(d, last) == Deck(d.cards[1..] + [Card(x.id, x.level, x.level, x.level)], x.level, x.id)
  {
  }

  /** A holder with nothing missing that may overwrite the aru brings it to the top. */
  lemma TopOne(d: Deck, last: int)
    requires |d.cards| > 0 && d.cards[0].level == last && (MayReset(d) || d.aru == last)
    ensures
      var x := d.cards[0];
      && Turn(d, last).aru == last
      && Turn(d, last).cards == d.cards[1..] + [Card(x.id, last, -1, last)]
  {
  }

  // ----- the start

  /** Marks are below `last` and the ids are distinct. */
  ghost predicate Dealt(d: Deck, last: int) {
    && |d.cards| > 1 && 0 < last && d.aru == last
    && (forall i :: 0 <= i < |d.cards| ==> d.cards[i].mark < last && 0 <= d.cards[i].level <= last)
    && (forall i, j :: 0 <= i < j < |d.cards| ==> d.cards[i].id != d.cards[j].id)
  }

  /** Everybody else has everything. */
  ghost predicate AllBut(d: Deck, last: int, b: nat) {
    b < |d.cards| && forall i :: 0 <= i < |d.cards| && i != b ==> d.cards[i].level == last
  }

  /** With the aru at its top, k daemons let it pass; the next one has seen it there before. */
  lemma TopPasses(d: Deck, k: nat, last: int)
    requires k < |d.cards| && d.aru == last > 0
    requires forall i :: 0 <= i <= k ==> d.cards[i].level == last && d.cards[i].mark < last
    requires d.cards[k].prev == last
    ensures Finishing(Turns(d, k, last), last)
  {
    PassMany(d, k, last);
    TopOne(Turns(d, k, last), last);
  }

  // ----- first pattern: a daemon without packet 1

  /** The daemon at 0 hands the token to the next one, which overwrites its word. */
  lemma ZeroThenTop(d: Deck, last: int)
    requires |d.cards| > 1 && d.cards[0].level == 0 < d.aru == last && d.cards[1].level == last
    ensures
      var e := Turns(d, 2, last);
      && e.aru == last && e.cards == d.cards[2..] + [Card(d.cards[0].id, 0, 0, 0), Card(d.cards[1].id, last, -1, last)]
  {
    LowOne(d, last);
    var d1 := Turn(d, last);
    assert Turns(d, 1, last) == Turn(Turns(d, 0, last), last) == d1;
    assert d1.cards[0] == d.cards[1];
    TopOne(d1, last);
    assert d1.cards[1..] == d.cards[2..] + [Card(d.cards[0].id, 0, 0, 0)];
  }

  /** If it is the first of the ring, the second finishes in its second visit. */
  lemma ZeroFirst(d: Deck, last: int)
    requires Dealt(d, last) && AllBut(d, last, 0) && d.cards[0].level == 0
    ensures Finishing(Turns(d, |d.cards| + 1, last), last)
  {
    var n := |d.cards|;
    ZeroThenTop(d, last);
    var e := Turns(d, 2, last);
    forall i | 0 <= i < n - 2
      ensures LetsPass(e.cards[i], last, e.lastId, last)
    {
      assert e.cards[i] == d.cards[i + 2];
    }
    PassMany(e, n - 2, last);
    TurnsAdd(d, 2, n - 2, last);
    var f := Turns(d, n, last);
    assert f.cards[0] == Card(d.cards[0].id, 0, 0, 0) && f.cards[1] == Card(d.cards[1].id, last, -1, last);
    LowOne(f, last);
    assert Turns(d, n + 1, last) == Turn(f, last);
    TopOne(Turn(f, last), last);
  }

  /** Behind a daemon at 0, the m-th one has seen the aru at its top before. */
  lemma AfterZero(d: Deck, m: nat, last: int)
    requires 0 < m < |d.cards| && d.aru == last > 0 && d.cards[0].level == 0
    requires forall i :: 0 < i <= m ==> d.cards[i].level == last && d.cards[i].mark < last
    requires d.cards[m].prev == last
    ensures Finishing(Turns(d, m, last), last)
  {
    if m == 1 {
      LowOne(d, last);
      assert Turns(d, 1, last) == Turn(Turns(d, 0, last), last);
      TopOne(Turn(d, last), last);
    } else {
      ZeroThenTop(d, last);
      var f := Turns(d, 2, last);
      hide Turn, Turns;
      assert forall i :: 0 <= i <= m - 2 ==> f.cards[i] == d.cards[i + 2];
      TopPasses(f, m - 2, last);
      TurnsAdd(d, 2, m - 2, last);
    }
  }

  /** Otherwise the first of the ring finishes in its second visit. */
  lemma ZeroLater(d: Deck, last: int, b: nat)
    requires Dealt(d, last) && 0 < b && AllBut(d, last, b) && d.cards[b].level == 0
    ensures Finishing(Turns(d, |d.cards|, last), last)
  {
    hide Turn, Turns;
    var n := |d.cards|;
    PassMany(d, b, last);
    var e := Turns(d, b, last);
    assert forall i :: 0 <= i < n - b ==> e.cards[i] == d.cards[b + i];
    assert e.cards[n - b] == Passed(d.cards[..b], last)[0];
    AfterZero(e, n - b, last);
    TurnsAdd(d, b, n - b, last);
  }

  // ----- second pattern: a mark of the old ring

  /** The first of the deck stops at v; the j-th card has that mark and raises the aru again. */
  predicate RaisedAt(d: Deck, j: nat, v: int, last: int) {
    && 0 < j < |d.cards| && d.aru == last && d.cards[0].level == v && 0 < v < last
    && d.cards[j].level == last && d.cards[j].mark == v
    && forall i :: 0 < i < j ==> d.cards[i].level == last && d.cards[i].mark != v && d.cards[i].id != d.cards[0].id
  }

  function AfterRaise(d: Deck, j: nat, last: int): seq<Card>
    requires 0 < j < |d.cards|
  {
    var v := d.cards[0].level;
    d.cards[j + 1..] + [Card(d.cards[0].id, v, v, v)] + Passed(d.cards[1..j], v) + [Card(d.cards[j].id, last, -1, last)]
  }

  lemma LowThenRaised(d: Deck, j: nat, v: int, last: int)
    requires RaisedAt(d, j, v, last)
    ensures Turns(d, j + 1, last).aru == last && Turns(d, j + 1, last).cards == AfterRaise(d, j, last)
  {
    LowOne(d, last);
    var e := Turn(d, last);
    assert e == Turns(d, 1, last) by { assert Turns(d, 0, last) == d; }
    forall i | 0 <= i < j - 1
      ensures LetsPass(e.cards[i], v, e.lastId, last)
    {
      assert e.cards[i] == d.cards[i + 1];
    }
    hide Turn;
    PassMany(e, j - 1, last);
    TurnsAdd(d, 1, j - 1, last);
    var f := Turns(d, j, last);
    assert f.cards[0] == d.cards[j];
    TopOne(f, last);
    assert Turns(d, j + 1, last) == Turn(f, last);
    assert e.cards[j - 1..] + Passed(e.cards[..j - 1], v)
           == [d.cards[j]] + (d.cards[j + 1..] + [Card(d.cards[0].id, v, v, v)] + Passed(d.cards[1..j], v));
  }

  /** Somebody stands before b, and has seen the aru at its top: it finishes in its second visit. */
  lemma ClashLater(d: Deck, last: int, b: nat, x: nat, v: int)
    requires Dealt(d, last) && 0 < b < x < |d.cards| && AllBut(d, last, b)
    requires d.cards[b].level == v && 0 < v < last && d.cards[x].mark == v
    requires forall i :: b < i < x ==> d.cards[i].mark != v
    ensures Finishing(Turns(d, |d.cards|, last), last)
  {
    hide Turn, Turns;
    var n := |d.cards|;
    PassMany(d, b, last);
    var e := Turns(d, b, last);
    assert forall i :: 0 <= i < n - b ==> e.cards[i] == d.cards[b + i];
    assert e.cards[n - b] == Passed(d.cards[..b], last)[0];
    RaisedThenTop(e, n - b, x - b, v, last);
    TurnsAdd(d, b, n - b, last);
  }

  /** The j-th card raises the aru again; the m-th, further on, has seen it at its top before. */
  lemma RaisedThenTop(e: Deck, m: nat, j: nat, v: int, last: int)
    requires RaisedAt(e, j, v, last) && j < m < |e.cards| && e.cards[m].prev == last
    requires forall i :: j < i <= m ==> e.cards[i].level == last && e.cards[i].mark < last
    ensures Finishing(Turns(e, m, last), last)
  {
    hide Turn, Turns, Passed;
    LowThenRaised(e, j, v, last);
    var f := Turns(e, j + 1, last);
    assert forall i :: 0 <= i < m - j ==> f.cards[i] == e.cards[j + 1 + i];
    TopPasses(f, m - j - 1, last);
    TurnsAdd(e, j + 1, m - j - 1, last);
  }

  /** Everybody but the first of the ring and z has everything. */
  ghost predicate AllButTwo(d: Deck, last: int, z: nat) {
    0 < z < |d.cards| && forall i :: 0 < i < |d.cards| && i != z ==> d.cards[i].level == last
  }

  /** One round after which the first of the ring still has its mark, and the aru is there or at its
      top. */
  ghost predicate RoundDone(d: Deck, x: nat, v: int, last: int) {
    && 0 < x < |d.cards| && 0 < v < last
    && d.cards[0].mark == v && (d.aru == v || d.aru == last)
    && (forall i :: 0 < i <= x ==> d.cards[i].level == last && d.cards[i].mark == -1)
    && d.cards[x].prev == last
  }

  /** What lies behind z lets v pass or raises it; the first of the ring is the (r + 1)-st. */
  lemma RestOfRound(d: Deck, r: nat, x: nat, v: int, last: int)
    requires 0 < x && r + x < |d.cards| && 0 < v < last && d.aru == v && d.cards[r].mark == v
    requires forall i :: 0 <= i < r ==> d.cards[i].level == last && d.cards[i].mark < last && d.cards[i].id != d.lastId
    requires forall i :: r < i <= r + x ==> d.cards[i].level == last && d.cards[i].mark == -1
    requires d.cards[r + x].prev == last
    ensures RoundDone(Turns(d, r, last), x, v, last)
  {
    hide Turn, Turns;
    var w := FirstMark(d.cards[..r], v);
    FirstMarkMeans(d.cards, r, w, v);
    if w < r {
      RestRaised(d, r, w, x, v, last);
    } else {
      RestPasses(d, r, x, v, last);
    }
  }

  lemma RestPasses(d: Deck, r: nat, x: nat, v: int, last: int)
    requires 0 < x && r + x < |d.cards| && 0 < v < last && d.aru == v && d.cards[r].mark == v
    requires forall i :: 0 <= i < r ==> LetsPass(d.cards[i], v, d.lastId, last)
    requires forall i :: r < i <= r + x ==> d.cards[i].level == last && d.cards[i].mark == -1
    requires d.cards[r + x].prev == last
    ensures RoundDone(Turns(d, r, last), x, v, last)
  {
    hide Turn, Turns, LetsPass;
    PassMany(d, r, last);
    var e := Turns(d, r, last);
    assert forall i :: 0 <= i <= x ==> e.cards[i] == d.cards[r + i];
  }

  lemma RestRaised(d: Deck, r: nat, w: nat, x: nat, v: int, last: int)
    requires 0 < x && w < r && r + x < |d.cards| && 0 < v < last && d.aru == v && d.cards[r].mark == v
    requires forall i :: 0 <= i < w ==> LetsPass(d.cards[i], v, d.lastId, last)
    requires d.cards[w].mark == v
    requires forall i :: w <= i < r ==> d.cards[i].level == last && d.cards[i].mark < last
    requires forall i :: r < i <= r + x ==> d.cards[i].level == last && d.cards[i].mark == -1
    requires d.cards[r + x].prev == last
    ensures RoundDone(Turns(d, r, last), x, v, last)
  {
    hide Turn, Turns;
    PassMany(d, w, last);
    var e := Turns(d, w, last);
    assert e.cards[0] == d.cards[w];
    RaiseHere(d, e, w, last);
    var f := Turns(d, w + 1, last);
    assert forall i :: 0 <= i < |d.cards| - w - 1 ==> f.cards[i] == d.cards[w + 1 + i];
    PassMany(f, r - w - 1, last);
    TurnsAdd(d, w + 1, r - w - 1, last);
    var g := Turns(d, r, last);
    assert forall i :: 0 <= i <= x ==> g.cards[i] == f.cards[r - w - 1 + i];
  }

  lemma {:induction false} FirstMark(cs: seq<Card>, v: int) returns (w: nat)
    ensures w <= |cs| && (forall i :: 0 <= i < w ==> cs[i].mark != v) && (w < |cs| ==> cs[w].mark == v)
  {
    w := 0;
    while w < |cs| && cs[w].mark != v
      invariant w <= |cs| && forall i :: 0 <= i < w ==> cs[i].mark != v
    {
      w := w + 1;
    }
  }

  lemma FirstMarkMeans(cards: seq<Card>, r: nat, w: nat, v: int)
    requires w <= r <= |cards|
    requires (forall i :: 0 <= i < w ==> cards[..r][i].mark != v) && (w < r ==> cards[..r][w].mark == v)
    ensures (forall i :: 0 <= i < w ==> cards[i].mark != v) && (w < r ==> cards[w].mark == v)
  {
    assert forall i :: 0 <= i < r ==> cards[..r][i] == cards[i];
  }

  lemma RaiseHere(d: Deck, e: Deck, w: nat, last: int)
    requires w < |d.cards| == |e.cards| && e == Turns(d, w, last)
    requires e.cards[0].level == last && e.cards[0].mark == e.aru
    ensures Turns(d, w + 1, last).aru == last
    ensures Turns(d, w + 1, last).cards == e.cards[1..] + [Card(e.cards[0].id, last, -1, last)]
  {
    TopOne(e, last);
  }

  /** The deck after z: what is left of the first round, then the daemons up to x once more. */
  ghost predicate Middle(d: Deck, g: Deck, x: nat, z: nat, v: int, last: int)
    requires 0 < x < z < |d.cards|
  {
    var r := |d.cards| - 1 - z;
    && |g.cards| == |d.cards| && g.aru == v && g.lastId == d.cards[z].id
    && (forall i :: 0 <= i < r ==> g.cards[i] == d.cards[z + 1 + i])
    && g.cards[r].mark == v
    && (forall i :: r < i <= r + x ==> g.cards[i].level == last && g.cards[i].mark == -1)
    && g.cards[r + x].prev == last
  }

  lemma ToMiddle(d: Deck, last: int, x: nat, z: nat, v: int)
    requires Dealt(d, last) && 0 < x < z < |d.cards| && AllButTwo(d, last, z)
    requires d.cards[0].level == v && d.cards[z].level == v && 0 < v < last && d.cards[x].mark == v
    requires forall i :: 0 < i < x ==> d.cards[i].mark != v
    ensures Middle(d, Turns(d, z + 1, last), x, z, v, last)
  {
    hide Turn, Turns, AfterRaise, Middle, Passed;
    var k := z - x - 1;
    LowThenRaised(d, x, v, last);
    RaisedLayout(d, x, last);
    var e := Turns(d, x + 1, last);
    PassMany(e, k, last);
    var f := Turns(e, k, last);
    TurnsAdd(d, x + 1, k, last);
    assert forall i :: 0 <= i < |d.cards| - k ==> f.cards[i] == e.cards[k + i];
    OneMore(d, z, last);
    MiddleIs(d, e, f, last, x, z, v);
  }

  lemma MiddleIs(d: Deck, e: Deck, f: Deck, last: int, x: nat, z: nat, v: int)
    requires 0 < x < z < |d.cards| == |e.cards| == |f.cards| && 0 < v < last && f.aru == last
    requires d.cards[z].level == v && AllButTwo(d, last, z)
    requires
      var n := |d.cards|;
      && (forall i :: 0 <= i < n - x - 1 ==> e.cards[i] == d.cards[x + 1 + i])
      && e.cards[n - x - 1] == Card(d.cards[0].id, v, v, v)
      && (forall i :: 0 < i < x ==> e.cards[n - x - 1 + i] == Card(d.cards[i].id, d.cards[i].level, -1, v))
      && e.cards[n - 1] == Card(d.cards[x].id, last, -1, last)
    requires forall i :: 0 <= i < |d.cards| - (z - x - 1) ==> f.cards[i] == e.cards[z - x - 1 + i]
    ensures Middle(d, Turn(f, last), x, z, v, last)
  {
    LowOne(f, last);
    var g, n := Turn(f, last), |d.cards|;
    hide Turn;
    forall i | 0 <= i < n - (z - x)
      ensures g.cards[i] == e.cards[z - x + i]
    {
      assert g.cards[i] == f.cards[i + 1];
    }
    var r := n - 1 - z;
    assert g.cards[r] == e.cards[n - x - 1];
    forall i | r < i <= r + x
      ensures g.cards[i].level == last && g.cards[i].mark == -1
    {
      var j := i - r;
      assert g.cards[i] == e.cards[n - x - 1 + j];
      if j < x {
        assert e.cards[n - x - 1 + j] == Card(d.cards[j].id, d.cards[j].level, -1, v);
      }
    }
    assert g.cards[r + x] == e.cards[n - 1];
  }

  /** The first of the ring stops at v, x raises the aru, and z stops at v once more. */
  lemma ClashFirst(d: Deck, last: int, x: nat, z: nat, v: int)
    requires Dealt(d, last) && 0 < x < z < |d.cards| && AllButTwo(d, last, z)
    requires d.cards[0].level == v && d.cards[z].level == v && 0 < v < last && d.cards[x].mark == v
    requires forall i :: 0 < i < x ==> d.cards[i].mark != v
    ensures RoundDone(Turns(d, |d.cards|, last), x, v, last)
  {
    hide Turn, Turns, RoundDone;
    var n := |d.cards|;
    ToMiddle(d, last, x, z, v);
    var g := Turns(d, z + 1, last);
    RestOfRound(g, n - 1 - z, x, v, last);
    TurnsAdd(d, z + 1, n - 1 - z, last);
  }

  lemma OneMore(d: Deck, k: nat, last: int)
    requires |d.cards| > 0
    ensures Turns(d, k + 1, last) == Turn(Turns(d, k, last), last)
  {
  }

  lemma RaisedLayout(d: Deck, x: nat, last: int)
    requires 0 < x < |d.cards|
    ensures
      var cs, n, v := AfterRaise(d, x, last), |d.cards|, d.cards[0].level;
      && |cs| == n
      && (forall i :: 0 <= i < n - x - 1 ==> cs[i] == d.cards[x + 1 + i])
      && cs[n - x - 1] == Card(d.cards[0].id, v, v, v)
      && (forall i :: 0 < i < x ==> cs[n - x - 1 + i] == Card(d.cards[i].id, d.cards[i].level, -1, v))
      && cs[n - 1] == Card(d.cards[x].id, last, -1, last)
  {
  }

  /** When the first of the ring has got its packets, it finds its mark or the aru at its top; x has
      seen it there before, and z still stops at v. */
  lemma ClashEnd(d: Deck, x: nat, v: int, last: int)
    requires RoundDone(d, x, v, last) && d.cards[0].level == last
    ensures Finishing(Turns(d, x, last), last)
  {
    TopOne(d, last);
    var e := Turns(d, 1, last);
    OneMore(d, 0, last);
    assert e == Turn(d, last);
    hide Turn, Turns;
    assert forall i :: 0 <= i < x ==> e.cards[i] == d.cards[i + 1];
    TopPasses(e, x - 1, last);
    TurnsAdd(d, 1, x - 1, last);
  }

  /** A full round brings every card back to its place, at its level. */
  lemma RoundLevels(d: Deck, k: nat, last: int, i: nat)
    requires |d.cards| > 0 && k == |d.cards| && i < k
    ensures Turns(d, k, last).cards[i].level == d.cards[i].level
  {
    hide Turn, Turns;
    TurnsMove(d, k, last);
    assert SameCard(d.cards[i], Turns(d, k, last).cards[k - k + i]);
  }

  /** The first k cards have gone to the back. */
  ghost predicate Moved(d: Deck, e: Deck, k: nat) {
    var n := |d.cards|;
    && k <= n == |e.cards|
    && (forall i :: 0 <= i < n - k ==> e.cards[i] == d.cards[k + i])
    && (forall i :: 0 <= i < k ==> SameCard(d.cards[i], e.cards[n - k + i]))
  }

  lemma {:induction false} TurnsMove(d: Deck, k: nat, last: int)
    requires |d.cards| > 0 && k <= |d.cards|
    ensures Moved(d, Turns(d, k, last), k)
  {
    if k > 0 {
      hide Moved, Turn;
      TurnsMove(d, k - 1, last);
      TurnShifts(Turns(d, k - 1, last), last);
      MovedOne(d, Turns(d, k - 1, last), Turns(d, k, last), k);
    }
  }

  lemma MovedOne(d: Deck, e: Deck, f: Deck, k: nat)
    requires 0 < k <= |d.cards| && Moved(d, e, k - 1) && |f.cards| == |e.cards|
    requires forall i :: 0 <= i < |d.cards| - 1 ==> f.cards[i] == e.cards[i + 1]
    requires SameCard(e.cards[0], f.cards[|d.cards| - 1])
    ensures Moved(d, f, k)
  {
    var n := |d.cards|;
    assert e.cards[0] == d.cards[k - 1 + 0];
    forall i | 0 <= i < k
      ensures SameCard(d.cards[i], f.cards[n - k + i])
    {
      if i < k - 1 {
        assert f.cards[n - k + i] == e.cards[n - (k - 1) + i];
      }
    }
  }

  lemma TurnShifts(d: Deck, last: int)
    requires |d.cards| > 0
    ensures
      var e, n := Turn(d, last), |d.cards|;
      && (forall i :: 0 <= i < n - 1 ==> e.cards[i] == d.cards[i + 1])
      && SameCard(d.cards[0], e.cards[n - 1])
  {
  }

  // ----- two that stop, the first of them at 0

  /** The first of the ring is without packet 1, the second stops at w. */
  ghost predicate Halting(d: Deck, w: int, last: int) {
    && |d.cards| > 1 && 0 < w < last && 0 < d.aru <= last
    && d.cards[0].level == 0 && d.cards[1].level == w
    && (forall i :: 2 <= i < |d.cards| ==> d.cards[i].level == last)
    && (forall i, j :: 0 <= i < j < |d.cards| ==> d.cards[i].id != d.cards[j].id)
  }

  /** The old marks are gone. */
  ghost predicate Warm(d: Deck, w: int) {
    && |d.cards| > 1 && d.cards[1].prev == w
    && forall i :: 2 <= i < |d.cards| ==> d.cards[i].mark == -1 && w <= d.cards[i].prev
  }

  /** The second overwrites the 0 of the first. */
  lemma TwoLow(d: Deck, w: int, last: int)
    requires Halting(d, w, last)
    ensures Turns(d, 1, last).aru == 0
    ensures Turns(d, 2, last) == Deck(d.cards[2..] + [Card(d.cards[0].id, 0, 0, 0), Card(d.cards[1].id, w, w, w)],
                                      w, d.cards[1].id)
  {
    LowOne(d, last);
    OneMore(d, 0, last);
    OneMore(d, 1, last);
    var e := Turns(d, 1, last);
    assert e == Turn(d, last);
    assert e.cards[0] == d.cards[1];
    assert e.cards[1..] == d.cards[2..] + [Card(d.cards[0].id, 0, 0, 0)];
  }

  /** k daemons with nothing missing lose their marks and leave the aru where it is or raise it. */
  ghost predicate Stretched(d: Deck, e: Deck, k: nat, w: int, last: int) {
    var n := |d.cards|;
    && k <= n == |e.cards| && w <= e.aru <= last
    && (forall i :: 0 <= i < n - k ==> e.cards[i] == d.cards[k + i])
    && (forall i :: n - k <= i < n ==> e.cards[i] == Card(d.cards[i - n + k].id, last, -1, e.cards[i].prev) && w <= e.cards[i].prev)
  }

  lemma {:induction false} TopStretch(d: Deck, k: nat, w: int, last: int)
    requires 0 < |d.cards| && k <= |d.cards| && 0 < w <= d.aru <= last
    requires forall i :: 0 <= i < k ==> d.cards[i].level == last
    ensures Stretched(d, Turns(d, k, last), k, w, last)
  {
    hide Turn, Stretched;
    if k == 0 {
      StretchNone(d, w, last);
    } else {
      TopStretch(d, k - 1, w, last);
      StretchOne(d, Turns(d, k - 1, last), k, w, last);
    }
  }

  lemma StretchOne(d: Deck, e: Deck, k: nat, w: int, last: int)
    requires 0 < k <= |d.cards| && 0 < w && Stretched(d, e, k - 1, w, last) && d.cards[k - 1].level == last
    ensures Stretched(d, Turn(e, last), k, w, last)
  {
    var f, n := Turn(e, last), |d.cards|;
    assert e.cards[0] == d.cards[k - 1 + 0];
    assert w <= f.aru <= last && f.cards[n - 1] == Card(e.cards[0].id, last, -1, f.aru);
    assert forall i :: 0 <= i < n - 1 ==> f.cards[i] == e.cards[i + 1];
  }

  lemma StretchNone(d: Deck, w: int, last: int)
    requires w <= d.aru <= last
    ensures Stretched(d, d, 0, w, last)
  {
  }

  /** A round changes neither who stands where nor at which level. */
  lemma HaltingStays(d: Deck, w: int, last: int)
    requires Halting(d, w, last) && 0 < Turns(d, |d.cards|, last).aru <= last
    ensures Halting(Turns(d, |d.cards|, last), w, last)
  {
    hide Turn, Turns;
    var n := |d.cards|;
    TurnsMove(d, n, last);
    var f := Turns(d, n, last);
    forall i | 0 <= i < n
      ensures SameCard(d.cards[i], f.cards[i])
    {
      assert SameCard(d.cards[i], f.cards[n - n + i]);
    }
  }

  /** After one round the old marks are gone, whatever they were. */
  lemma ColdRound(d: Deck, w: int, last: int)
    requires Halting(d, w, last)
    ensures Halting(Turns(d, |d.cards|, last), w, last) && Warm(Turns(d, |d.cards|, last), w)
  {
    var n := |d.cards|;
    TwoLow(d, w, last);
    var e := Turns(d, 2, last);
    hide Turn, Turns;
    assert forall i :: 0 <= i < n - 2 ==> e.cards[i] == d.cards[i + 2];
    TopStretch(e, n - 2, w, last);
    TurnsAdd(d, 2, n - 2, last);
    var f := Turns(d, n, last);
    StretchedWarm(e, f, d.cards[1].id, w, last);
    HaltingStays(d, w, last);
  }

  lemma StretchedWarm(e: Deck, f: Deck, id: int, w: int, last: int)
    requires |e.cards| > 1 && Stretched(e, f, |e.cards| - 2, w, last) && 0 < w
    requires e.cards[|e.cards| - 1] == Card(id, w, w, w)
    ensures 0 < f.aru <= last && Warm(f, w)
  {
    assert f.cards[1] == e.cards[|e.cards| - 2 + 1];
  }

  /** From then on every daemon but the first one stamps w. */
  lemma WarmRound(d: Deck, k: nat, w: int, last: int)
    requires Halting(d, w, last) && Warm(d, w) && 2 <= k <= |d.cards|
    ensures
      var e := Turns(d, k, last);
      && e.aru == w && e.cards[|d.cards| - k] == Card(d.cards[0].id, 0, 0, 0)
      && forall i :: |d.cards| - k < i < |d.cards| ==> e.cards[i].prev == w
    ensures Turns(d, 1, last).aru == 0
  {
    TwoLow(d, w, last);
    var e := Turns(d, 2, last);
    hide Turn, Turns;
    forall i | 0 <= i < k - 2
      ensures LetsPass(e.cards[i], w, e.lastId, last)
    {
      assert e.cards[i] == d.cards[i + 2];
    }
    PassMany(e, k - 2, last);
    TurnsAdd(d, 2, k - 2, last);
    hide LetsPass;
    var f, n := Turns(d, k, last), |d.cards|;
    assert f.cards == e.cards[k - 2..] + Passed(e.cards[..k - 2], w);
    assert f.cards[n - k] == e.cards[n - 2] && f.cards[n - k + 1] == e.cards[n - 1];
  }

  /** So nobody finishes in such a round. */
  lemma WarmGoesOn(d: Deck, j: nat, w: int, last: int)
    requires Halting(d, w, last) && Warm(d, w) && j < |d.cards|
    ensures !Finishing(Turns(d, j, last), last)
  {
    hide Turn, Turns;
    WarmRound(d, if j == 0 then 2 else j + 1, w, last);
    OneMore(d, j, last);
  }

  /** Nor in one at whose start nobody has forwarded the top. */
  lemma ColdGoesOn(d: Deck, j: nat, last: int)
    requires 0 < |d.cards| && j < |d.cards| && d.cards[j].prev < last
    ensures !Finishing(Turns(d, j, last), last)
  {
    hide Turn, Turns;
    TurnsMove(d, j, last);
    assert Turns(d, j, last).cards[0] == d.cards[j + 0];
  }
}

/** The acknowledgement ("aru", all-received-up-to) part of the token protocol, cut down to the
    numbers it works on. `ring` lists the members in the order in which the token will reach
    them: ring[0] holds the token next, and the last entry is the member that forwarded it last.

    `Visit` is what one daemon does to the token's aru field and to its own Set_aru and Aru;
    `Receive` is any increase of a daemon's My_aru between two visits. */
module AruCore {

  /** One daemon: My_aru, Set_aru (-1 when it has none), the aru on the token it forwarded last
      (Last_token->aru) and its Aru. */
  datatype Cell = Cell(id: int, my: int, mark: int, prev: int, aru: int)

  datatype Core = Core(ring: seq<Cell>, aru: int, seqNo: int, lastId: int)

  function Min(a: int, b: int): int { if a < b then a else b }

  ghost predicate DistinctIds(ring: seq<Cell>) {
    forall i, j :: 0 <= i < j < |ring| ==> ring[i].id != ring[j].id
  }

  /** The daemon may overwrite the token's aru with its own, higher or lower. */
  predicate MayReset(c: Core)
    requires |c.ring| > 0
  {
    c.aru == c.ring[0].mark || c.lastId == c.ring[0].id || c.aru == c.seqNo
  }

  /** The holder, whose My_aru is now m and whose Highest_seq is now h, updates token and Aru. */
  function Visit(c: Core, h: int, m: int): Core
    requires |c.ring| > 0
  {
    var x := c.ring[0];
    if MayReset(c) then
      Core(c.ring[1..] + [Cell(x.id, m, if m < h then m else -1, m, Min(m, x.prev))], m, h, x.id)
    else if c.aru > m then
      Core(c.ring[1..] + [Cell(x.id, m, m, m, Min(m, x.prev))], m, h, x.id)
    else
      Core(c.ring[1..] + [Cell(x.id, m, -1, c.aru, Min(c.aru, x.prev))], c.aru, h, c.lastId)
  }

  function Receive(c: Core, i: nat, m: int): Core
    requires i < |c.ring|
  {
    c.(ring := c.ring[i := c.ring[i].(my := m)])
  }

  predicate CanVisit(c: Core, h: int, m: int) {
    |c.ring| > 0 && c.seqNo <= h && c.ring[0].my <= m <= h
  }

  predicate CanReceive(c: Core, i: nat, m: int) {
    i < |c.ring| && c.ring[i].my <= m <= c.seqNo
  }

  // ----- what stability means

  /** No daemon believes that more has been received everywhere than some member really has. */
  ghost predicate Stable(c: Core) {
    forall i, j :: 0 <= i < |c.ring| && 0 <= j < |c.ring| ==> c.ring[i].aru <= c.ring[j].my
  }

  /** Range facts that hold of every run, whatever the first token says. */
  ghost predicate Ranges(c: Core) {
    && 0 <= c.aru && 0 <= c.seqNo
    && DistinctIds(c.ring)
    && forall i :: 0 <= i < |c.ring| ==>
         var x := c.ring[i];
         && 0 <= x.aru <= x.prev <= x.my <= c.seqNo
         && x.aru <= c.aru
         && -1 <= x.mark
  }

  /** Whoever is visited after member i has, by now, at least what i forwarded or what the token
      carries, whichever is less. This is the heart of stability. */
  ghost predicate Covered(c: Core) {
    forall i, j :: 0 <= i <= j < |c.ring| ==>
      && Min(c.ring[i].prev, c.aru) <= c.ring[j].my
      && Min(c.ring[i].prev, c.aru) <= c.ring[j].prev
      && c.ring[i].aru <= c.ring[j].aru
      && c.ring[j].aru <= c.ring[i].prev
  }

  ghost predicate Safe(c: Core) {
    Ranges(c) && Covered(c) && Stable(c)
  }

  /** Whenever the holder may overwrite the token's aru, nobody forwarded a larger one on this
      rotation. Under this condition no visit breaks `Safe`. */
  ghost predicate ResetOk(c: Core) {
    |c.ring| > 0 && MayReset(c) ==> forall i :: 0 <= i < |c.ring| ==> c.ring[i].prev <= c.aru
  }

  /** The shape of a visit: the others shift forward, the holder goes to the back. */
  lemma VisitShape(c: Core, h: int, m: int)
    requires CanVisit(c, h, m)
    ensures var d, n := Visit(c, h, m), |c.ring|;
            && |d.ring| == n && d.seqNo == h
            && (forall i :: 0 <= i < n - 1 ==> d.ring[i] == c.ring[i + 1])
            && d.aru <= m
            && d.ring[n - 1] == Cell(c.ring[0].id, m, d.ring[n - 1].mark, d.aru, Min(d.aru, c.ring[0].prev))
            && (d.aru > c.aru ==> MayReset(c))
            && (d.aru == m || d.aru == c.aru)
  {
  }

  /** The holder's new Aru lies between every Aru so far and everything the others hold. */
  lemma NewAruBounds(c: Core, h: int, m: int)
    requires Safe(c) && ResetOk(c) && CanVisit(c, h, m)
    ensures var y := Visit(c, h, m).ring[|c.ring| - 1];
            forall j :: 0 <= j < |c.ring| ==>
              && c.ring[j].aru <= y.aru <= c.ring[j].my
              && y.aru <= c.ring[j].prev
              && c.ring[j].aru <= Visit(c, h, m).aru
              && Min(c.ring[j].prev, Visit(c, h, m).aru) <= Min(c.ring[j].prev, c.aru)
  {
    VisitShape(c, h, m);
    var d := Visit(c, h, m);
    forall j | 0 <= j < |c.ring|
      ensures
        var y := d.ring[|c.ring| - 1];
        && c.ring[j].aru <= y.aru <= c.ring[j].my
        && y.aru <= c.ring[j].prev
        && c.ring[j].aru <= d.aru
        && Min(c.ring[j].prev, d.aru) <= Min(c.ring[j].prev, c.aru)
    {
      assert Min(c.ring[0].prev, c.aru) <= c.ring[j].my;
      assert c.ring[j].aru <= c.ring[0].prev;
      assert c.ring[j].aru <= c.ring[0].my;
    }
  }

  lemma VisitKeepsRanges(c: Core, h: int, m: int)
    requires Safe(c) && ResetOk(c) && CanVisit(c, h, m)
    ensures Ranges(Visit(c, h, m)) && Stable(Visit(c, h, m))
  {
    VisitShape(c, h, m);
    NewAruBounds(c, h, m);
    var d, n := Visit(c, h, m), |c.ring|;
    assert forall i :: 0 < i < n ==> c.ring[i].id != d.ring[n - 1].id;
  }

  lemma VisitKeepsCovered(c: Core, h: int, m: int)
    requires Safe(c) && ResetOk(c) && CanVisit(c, h, m)
    ensures Covered(Visit(c, h, m))
  {
    VisitShape(c, h, m);
    NewAruBounds(c, h, m);
    var d, n := Visit(c, h, m), |c.ring|;
    forall i, j | 0 <= i <= j < n
      ensures Min(d.ring[i].prev, d.aru) <= d.ring[j].my
      ensures Min(d.ring[i].prev, d.aru) <= d.ring[j].prev
      ensures d.ring[i].aru <= d.ring[j].aru <= d.ring[i].prev
    {
      if j < n - 1 {
        assert d.ring[i] == c.ring[i + 1] && d.ring[j] == c.ring[j + 1];
      } else if i < n - 1 {
        assert d.ring[i] == c.ring[i + 1];
      }
    }
  }

  lemma VisitKeepsSafe(c: Core, h: int, m: int)
    requires Safe(c) && ResetOk(c) && CanVisit(c, h, m)
    ensures Safe(Visit(c, h, m))
    ensures Visit(c, h, m).aru <= m
    ensures forall j :: 0 <= j < |c.ring| ==> c.ring[j].aru <= Visit(c, h, m).ring[|c.ring| - 1].aru
  {
    VisitKeepsRanges(c, h, m);
    VisitKeepsCovered(c, h, m);
    NewAruBounds(c, h, m);
  }

  lemma ReceiveKeepsSafe(c: Core, i: nat, m: int)
    requires Safe(c) && CanReceive(c, i, m)
    ensures Safe(Receive(c, i, m))
  {
  }

  // ----- when resets are harmless

  /** The ordinary regime: the token's aru is at most its seq, Set_aru values are below seq and
      strictly larger the longer ago they were set, and the member named in the token was the
      last to write it. */
  ghost predicate Ordinary(c: Core) {
    c.aru <= c.seqNo && MarksOk(c) && WriterOk(c)
  }

  ghost predicate MarksOk(c: Core) {
    forall i :: 0 <= i < |c.ring| && c.ring[i].mark != -1 ==>
      && c.aru <= c.ring[i].mark < c.seqNo
      && (forall j :: i <= j < |c.ring| ==> c.ring[j].prev <= c.ring[i].mark)
      && (forall j :: i < j < |c.ring| ==> c.ring[j].mark < c.ring[i].mark)
  }

  ghost predicate WriterOk(c: Core) {
    forall i :: 0 <= i < |c.ring| && c.ring[i].id == c.lastId ==>
      && (forall j :: i <= j < |c.ring| ==> c.ring[j].prev <= c.aru)
      && (forall j :: i < j < |c.ring| ==> c.ring[j].mark == -1)
  }

  lemma OrdinaryResets(c: Core)
    requires Ranges(c) && Ordinary(c)
    ensures ResetOk(c)
  {
  }

  /** Only a daemon whose own mark is the sole one left may overwrite the token. */
  lemma ResetIsAlone(c: Core)
    requires |c.ring| > 0 && Ranges(c) && Ordinary(c) && MayReset(c)
    ensures forall i :: 0 < i < |c.ring| ==> c.ring[i].mark == -1
  {
    assert c.aru == c.ring[0].mark ==> c.ring[0].mark != -1;
  }

  lemma VisitKeepsOrdinary(c: Core, h: int, m: int)
    requires Safe(c) && Ordinary(c) && CanVisit(c, h, m)
    ensures Ordinary(Visit(c, h, m))
  {
    var d, n := Visit(c, h, m), |c.ring|;
    assert forall i :: 0 <= i < n - 1 ==> d.ring[i] == c.ring[i + 1];
    if MayReset(c) {
      ResetIsAlone(c);
    }
    forall i | 0 <= i < n - 1 && d.ring[i].mark != -1
      ensures d.aru <= d.ring[i].mark < d.seqNo
      ensures forall j :: i <= j < n ==> d.ring[j].prev <= d.ring[i].mark
      ensures forall j :: i < j < n ==> d.ring[j].mark < d.ring[i].mark
    {
      assert c.ring[i + 1].mark == d.ring[i].mark;
    }
    forall i | 0 <= i < n - 1 && d.ring[i].id == d.lastId
      ensures forall j :: i <= j < n ==> d.ring[j].prev <= d.aru
      ensures forall j :: i < j < n ==> d.ring[j].mark == -1
    {
      assert c.ring[i + 1].id == d.ring[i].id;
    }
  }

  lemma ReceiveKeepsOrdinary(c: Core, i: nat, m: int)
    requires Ordinary(c) && CanReceive(c, i, m)
    ensures Ordinary(Receive(c, i, m))
  {
  }

  /** A ring of at most two members is harmless whatever the first token says. */
  ghost predicate Small(c: Core) {
    && |c.ring| <= 2
    && (forall i :: 0 <= i < |c.ring| && c.ring[i].mark != -1 ==> c.ring[i].prev == c.ring[i].mark)
    && (forall i :: 0 <= i < |c.ring| && c.ring[i].id == c.lastId ==> c.ring[i].prev == c.aru || c.ring[i].prev == 0)
    && (|c.ring| > 0 ==> c.ring[|c.ring| - 1].prev == c.aru || forall i :: 0 <= i < |c.ring| ==> c.ring[i].prev == 0)
  }

  lemma SmallResets(c: Core)
    requires Ranges(c) && Small(c)
    ensures ResetOk(c)
  {
  }

  lemma VisitKeepsSmall(c: Core, h: int, m: int)
    requires Safe(c) && Small(c) && CanVisit(c, h, m)
    ensures Small(Visit(c, h, m))
  {
    var d, n := Visit(c, h, m), |c.ring|;
    assert forall i :: 0 <= i < n - 1 ==> d.ring[i] == c.ring[i + 1];
  }

  lemma ReceiveKeepsSmall(c: Core, i: nat, m: int)
    requires Small(c) && CanReceive(c, i, m)
    ensures Small(Receive(c, i, m))
  {
  }

  // ----- the first token

  /** A ring that has just installed a membership; the token still carries the aru of the
      recovery phase and the name of whoever wrote it last. */
  ghost predicate Fresh(c: Core) {
    && |c.ring| > 0 && DistinctIds(c.ring)
    && 0 <= c.aru && c.seqNo == 0
    && forall i :: 0 <= i < |c.ring| ==> c.ring[i] == Cell(c.ring[i].id, 0, -1, 0, 0)
  }

  /** What a caller can look at before the first rotation: the ring is small, the token carries
      nothing above its seq, or its aru was last written by the daemon that gets it first. */
  ghost predicate HarmlessStart(c: Core)
    requires |c.ring| > 0
  {
    |c.ring| <= 2 || c.aru <= c.seqNo || c.lastId == c.ring[0].id
  }

  /** The invariant of every run from a harmless start. */
  ghost predicate Inv(c: Core) {
    && |c.ring| > 0
    && Safe(c)
    && (Ordinary(c) || Small(c) || (Fresh(c) && c.lastId == c.ring[0].id))
  }

  lemma HarmlessStartInv(c: Core)
    requires Fresh(c) && HarmlessStart(c)
    ensures Inv(c)
  {
  }

  lemma VisitKeepsInv(c: Core, h: int, m: int)
    requires Inv(c) && CanVisit(c, h, m)
    ensures Inv(Visit(c, h, m))
    ensures Visit(c, h, m).aru <= m
    ensures forall j :: 0 <= j < |c.ring| ==> c.ring[j].aru <= Visit(c, h, m).ring[|c.ring| - 1].aru
  {
    if Ordinary(c) {
      OrdinaryResets(c);
      VisitKeepsOrdinary(c, h, m);
    } else if Small(c) {
      SmallResets(c);
      VisitKeepsSmall(c, h, m);
    } else {
      var d, n := Visit(c, h, m), |c.ring|;
      assert forall i :: 0 <= i < n - 1 ==> d.ring[i] == c.ring[i + 1];
      assert Ordinary(d);
    }
    VisitKeepsSafe(c, h, m);
  }

  lemma ReceiveKeepsInv(c: Core, i: nat, m: int)
    requires Inv(c) && CanReceive(c, i, m)
    ensures Inv(Receive(c, i, m))
  {
    ReceiveKeepsSafe(c, i, m);
    if Ordinary(c) {
      ReceiveKeepsOrdinary(c, i, m);
    } else if Small(c) {
      ReceiveKeepsSmall(c, i, m);
    } else {
      assert Receive(c, i, m).ring == c.ring;
    }
  }
}

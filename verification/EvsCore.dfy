/** The acknowledgement part of the token protocol while the daemons recover (EVS). The rules are
    those of AruCore but for two things: Token->seq stays 0, so that "aru == seq" means that the
    aru has been lowered to 0; and a daemon with nothing missing counts as having received
    everything up to `last` (Last_seq), a number above all packets.

    Set_aru is not reset when the entry is read: it still is what the old ring left there. */
module EvsCore {
  import A = AruCore

  /** `stops` are the values at which My_aru may stand, short of `last`, when the token comes. */
  datatype Member = Member(cell: A.Cell, stops: set<int>)

  datatype Core = Core(ring: seq<Member>, aru: int, lastId: int)

  predicate MayReset(c: Core)
    requires |c.ring| > 0
  {
    c.aru == c.ring[0].cell.mark || c.lastId == c.ring[0].cell.id || c.aru == 0
  }

  /** The holder's My_aru is now m, and may later stand at `stops`. */
  function Visit(c: Core, last: int, m: int, stops: set<int>): Core
    requires |c.ring| > 0
  {
    var x := c.ring[0].cell;
    if MayReset(c) then
      Core(c.ring[1..] + [Member(A.Cell(x.id, m, if m < last then m else -1, m, A.Min(m, x.prev)), stops)], m, x.id)
    else if c.aru > m then
      Core(c.ring[1..] + [Member(A.Cell(x.id, m, m, m, A.Min(m, x.prev)), stops)], m, x.id)
    else
      Core(c.ring[1..] + [Member(A.Cell(x.id, m, -1, c.aru, A.Min(c.aru, x.prev)), stops)], c.aru, c.lastId)
  }

  /** What a holder can do. */
  predicate CanVisit(c: Core, last: int, m: int, stops: set<int>) {
    && |c.ring| > 0 && c.ring[0].cell.my <= m <= last
    && (m < last ==> m in c.ring[0].stops) && stops <= c.ring[0].stops
  }

  function Cells(c: Core, last: int): (a: A.Core)
    ensures |a.ring| == |c.ring| && forall i :: 0 <= i < |c.ring| ==> a.ring[i] == c.ring[i].cell
  {
    A.Core(seq(|c.ring|, i requires 0 <= i < |c.ring| => c.ring[i].cell), c.aru, last, c.lastId)
  }

  // ----- what can be seen at the start

  /** Two daemons have gone out of step: b < x < all the others that matter. Member x still has a
      mark at which b may stop, and there is somebody before b, or somebody after x who may stop
      there too. */
  ghost predicate Clash(c: Core, b: nat, x: nat)
    requires b < x < |c.ring|
  {
    && c.ring[x].cell.mark in c.ring[b].stops
    && (b > 0 || exists z :: x < z < |c.ring| && c.ring[x].cell.mark in c.ring[z].stops)
  }

  ghost predicate Sound(c: Core) {
    |c.ring| <= 1 || (
      && (forall i :: 0 <= i < |c.ring| ==> 0 !in c.ring[i].stops)
      && (forall b, x :: 0 <= b < x < |c.ring| ==> !Clash(c, b, x)))
  }

  // ----- the ring before its first visit

  ghost predicate Fresh(c: Core, last: int) {
    && |c.ring| > 0 && 0 < last && c.aru == last
    && A.DistinctIds(Cells(c, last).ring)
    && forall i :: 0 <= i < |c.ring| ==>
         && c.ring[i].cell.prev == 0 && c.ring[i].cell.aru == 0
         && 0 <= c.ring[i].cell.my <= last && -1 <= c.ring[i].cell.mark < last
         && StopsOk(c.ring[i], last)
  }

  ghost predicate StopsOk(m: Member, last: int) {
    forall v :: v in m.stops ==> 0 <= v < last
  }

  // ----- marks that matter and marks that do not

  /** By the time the token is back, its aru cannot be the mark. */
  ghost predicate Dead(c: Core, i: nat)
    requires i < |c.ring|
  {
    c.ring[i].cell.mark != c.aru && forall k :: 0 <= k < i ==> c.ring[i].cell.mark !in c.ring[k].stops
  }

  /** Nobody but these two can bring the aru to their common mark again before the second of
      them is visited. */
  ghost predicate Paired(c: Core, i: nat, j: nat)
    requires i < j < |c.ring|
  {
    var v := c.ring[i].cell.mark;
    && v == c.ring[j].cell.mark
    && (forall k :: i < k < j ==> v !in c.ring[k].stops)
    && (v in c.ring[i].stops ==> forall k :: 0 <= k < |c.ring| && k != i && k != j ==> v !in c.ring[k].stops)
  }

  ghost predicate Below(c: Core, i: nat, j: nat)
    requires i < j < |c.ring|
  {
    c.ring[j].cell.mark == -1 || Dead(c, j) || c.ring[j].cell.mark < c.ring[i].cell.mark || Paired(c, i, j)
  }

  ghost predicate Live(c: Core, last: int, i: nat)
    requires i < |c.ring|
  {
    var v := c.ring[i].cell.mark;
    && c.aru <= v < last
    && (forall j :: i <= j < |c.ring| ==> c.ring[j].cell.prev <= v)
    && (forall j :: i < j < |c.ring| ==> Below(c, i, j))
  }

  ghost predicate MarkOk(c: Core, last: int, i: nat)
    requires i < |c.ring|
  {
    c.ring[i].cell.mark == -1 || (c.ring[i].cell.mark < last && Dead(c, i)) || Live(c, last, i)
  }

  /** The last writer's word still stands. */
  ghost predicate WriterOk(c: Core, i: nat)
    requires i < |c.ring|
  {
    c.ring[i].cell.id == c.lastId ==>
      && (forall j :: i <= j < |c.ring| ==> c.ring[j].cell.prev <= c.aru)
      && (forall j :: i < j < |c.ring| ==> c.ring[j].cell.mark == -1 || Dead(c, j))
  }

  ghost predicate Settled(c: Core, last: int) {
    && (forall i :: 0 <= i < |c.ring| ==> MarkOk(c, last, i))
    && (c.aru < last ==> forall i :: 0 <= i < |c.ring| ==> WriterOk(c, i))
  }

  ghost predicate NoZero(c: Core, last: int) {
    && |c.ring| > 0 && 0 < c.aru <= last && 0 < last
    && forall i :: 0 <= i < |c.ring| ==> 0 !in c.ring[i].stops && StopsOk(c.ring[i], last)
  }

  ghost predicate Inv(c: Core, last: int) {
    && NoZero(c, last) && A.Safe(Cells(c, last))
    && (Settled(c, last) || (Fresh(c, last) && Sound(c) && |c.ring| > 1))
  }

  // ----- the visit is AruCore's

  lemma VisitRefines(c: Core, last: int, m: int, stops: set<int>)
    requires NoZero(c, last) && CanVisit(c, last, m, stops) && c.ring[0].cell.mark < last
    ensures
      var a, b := Cells(Visit(c, last, m, stops), last), A.Visit(Cells(c, last), last, m);
      a.ring == b.ring && a.aru == b.aru && a.seqNo == b.seqNo
  {
    var d, b := Visit(c, last, m, stops), A.Visit(Cells(c, last), last, m);
    forall i | 0 <= i < |c.ring|
      ensures d.ring[i].cell == b.ring[i]
    {
    }
  }

  lemma SafeIgnoresWriter(a: A.Core, b: A.Core)
    requires A.Safe(a) && b == a.(lastId := b.lastId)
    ensures A.Safe(b)
  {
  }

  lemma MayResetOk(c: Core, last: int)
    requires NoZero(c, last) && A.Safe(Cells(c, last))
    requires Settled(c, last) || Fresh(c, last)
    ensures c.ring[0].cell.mark < last
    ensures A.ResetOk(Cells(c, last).(lastId := if c.aru < last then c.lastId else c.ring[0].cell.id))
  {
    if Settled(c, last) {
      assert MarkOk(c, last, 0);
      if c.aru < last {
        assert WriterOk(c, 0);
      }
    }
  }

  lemma VisitKeepsSafe(c: Core, last: int, m: int, stops: set<int>)
    requires NoZero(c, last) && A.Safe(Cells(c, last)) && CanVisit(c, last, m, stops)
    requires Settled(c, last) || Fresh(c, last)
    ensures A.Safe(Cells(Visit(c, last, m, stops), last))
    ensures NoZero(Visit(c, last, m, stops), last)
    ensures Visit(c, last, m, stops).aru <= m
  {
    MayResetOk(c, last);
    VisitRefines(c, last, m, stops);
    hide Settled, Fresh, A.Safe, A.ResetOk, A.Visit;
    var a := Cells(c, last).(lastId := if c.aru < last then c.lastId else c.ring[0].cell.id);
    SafeIgnoresWriter(Cells(c, last), a);
    A.VisitKeepsSafe(a, last, m);
    VisitIgnoresWriter(c, last, m);
    SafeIgnoresWriter(A.Visit(a, last, m), Cells(Visit(c, last, m, stops), last));
  }

  lemma VisitIgnoresWriter(c: Core, last: int, m: int)
    requires |c.ring| > 0
    ensures
      var a := Cells(c, last).(lastId := if c.aru < last then c.lastId else c.ring[0].cell.id);
      var b, d := A.Visit(Cells(c, last), last, m), A.Visit(a, last, m);
      c.aru <= last ==> b.ring == d.ring && b.aru == d.aru && b.seqNo == d.seqNo
  {
  }

  // ----- the marks after a visit

  lemma Shifted(c: Core, last: int, m: int, stops: set<int>)
    requires CanVisit(c, last, m, stops)
    ensures
      var d, n := Visit(c, last, m, stops), |c.ring|;
      && |d.ring| == n && (forall i :: 0 <= i < n - 1 ==> d.ring[i] == c.ring[i + 1])
      && d.ring[n - 1].stops == stops && d.ring[n - 1].cell.id == c.ring[0].cell.id
      && d.ring[n - 1].cell.prev == d.aru
      && (d.ring[n - 1].cell.mark == -1 || (d.ring[n - 1].cell.mark == m == d.aru))
      && (d.aru == m || d.aru == c.aru)
  {
  }

  lemma DeadStays(c: Core, last: int, m: int, stops: set<int>, i: nat)
    requires CanVisit(c, last, m, stops) && i < |c.ring| - 1 && Dead(c, i + 1) && c.ring[i + 1].cell.mark < last
    ensures Dead(Visit(c, last, m, stops), i)
  {
    Shifted(c, last, m, stops);
    var d := Visit(c, last, m, stops);
    forall k | 0 <= k < i
      ensures d.ring[i].cell.mark !in d.ring[k].stops
    {
      assert d.ring[k] == c.ring[k + 1];
    }
    hide Visit;
  }

  /** A pair of marks stays one, and one part of it is left behind by the other. */
  lemma PairStays(c: Core, last: int, m: int, stops: set<int>, i: nat, j: nat)
    requires CanVisit(c, last, m, stops) && i < j < |c.ring| - 1 && Paired(c, i + 1, j + 1)
    ensures Paired(Visit(c, last, m, stops), i, j)
  {
    Shifted(c, last, m, stops);
    var d, n := Visit(c, last, m, stops), |c.ring|;
    hide Visit;
    var v := d.ring[i].cell.mark;
    forall k | i < k < j
      ensures v !in d.ring[k].stops
    {
      assert d.ring[k] == c.ring[k + 1];
    }
    if v in d.ring[i].stops {
      forall k | 0 <= k < n && k != i && k != j
        ensures v !in d.ring[k].stops
      {
        if k < n - 1 {
          assert d.ring[k] == c.ring[k + 1];
        } else {
          assert v !in c.ring[0].stops;
        }
      }
    }
  }

  lemma BelowStays(c: Core, last: int, m: int, stops: set<int>, i: nat, j: nat)
    requires CanVisit(c, last, m, stops) && i < j < |c.ring| - 1 && Below(c, i + 1, j + 1)
    requires c.ring[j + 1].cell.mark < last
    ensures Below(Visit(c, last, m, stops), i, j)
  {
    Shifted(c, last, m, stops);
    if Dead(c, j + 1) {
      DeadStays(c, last, m, stops, j);
    } else if Paired(c, i + 1, j + 1) {
      PairStays(c, last, m, stops, i, j);
    }
    hide Visit, Paired, Dead;
  }

  /** The aru has not risen: live marks stay live. */
  lemma LiveStays(c: Core, last: int, m: int, stops: set<int>, i: nat)
    requires CanVisit(c, last, m, stops) && 0 < last && Settled(c, last) && i < |c.ring| - 1 && Live(c, last, i + 1)
    requires Visit(c, last, m, stops).aru <= c.aru
    requires
      var d, n := Visit(c, last, m, stops), |c.ring|;
      Below(d, i, n - 1)
    ensures Live(Visit(c, last, m, stops), last, i)
  {
    Shifted(c, last, m, stops);
    var d, n := Visit(c, last, m, stops), |c.ring|;
    forall j | i <= j < n
      ensures d.ring[j].cell.prev <= d.ring[i].cell.mark
    {
      if j < n - 1 {
        assert d.ring[j] == c.ring[j + 1];
      }
    }
    forall j | i < j < n
      ensures Below(d, i, j)
    {
      if j < n - 1 {
        MarkBelowLast(c, last, j + 1);
        BelowStays(c, last, m, stops, i, j);
      }
    }
    hide Visit, Below;
  }

  lemma MarkBelowLast(c: Core, last: int, i: nat)
    requires Settled(c, last) && i < |c.ring| && 0 < last
    ensures c.ring[i].cell.mark < last
  {
    assert MarkOk(c, last, i);
  }

  /** Everything but the marks of the others is plain after a visit. */
  lemma MarksSuffice(c: Core, last: int, m: int, stops: set<int>)
    requires CanVisit(c, last, m, stops) && NoZero(c, last) && A.DistinctIds(Cells(c, last).ring)
    requires
      var d, n := Visit(c, last, m, stops), |c.ring|;
      && (forall i :: 0 <= i < n - 1 ==> MarkOk(d, last, i))
      && (d.lastId == c.ring[0].cell.id || d.aru == last || forall i :: 0 <= i < n - 1 ==> WriterOk(d, i))
    ensures Settled(Visit(c, last, m, stops), last)
  {
    Shifted(c, last, m, stops);
    var d, n := Visit(c, last, m, stops), |c.ring|;
    forall i | 0 <= i < n - 1
      ensures d.ring[i].cell.id != c.ring[0].cell.id
    {
      assert Cells(c, last).ring[0].id != Cells(c, last).ring[i + 1].id;
    }
    assert MarkOk(d, last, n - 1);
    hide MarkOk, Cells, A.DistinctIds;
    if d.aru < last {
      forall i | 0 <= i < n
        ensures WriterOk(d, i)
      {
      }
    }
  }

  /** The holder keeps the others' word: the aru falls or stays. */
  lemma KeepingSettles(c: Core, last: int, m: int, stops: set<int>)
    requires CanVisit(c, last, m, stops) && NoZero(c, last) && A.DistinctIds(Cells(c, last).ring)
    requires Settled(c, last) && !MayReset(c)
    ensures Settled(Visit(c, last, m, stops), last)
  {
    Shifted(c, last, m, stops);
    var d, n := Visit(c, last, m, stops), |c.ring|;
    assert d.aru <= c.aru && (d.ring[n - 1].cell.mark != -1 ==> d.ring[n - 1].cell.mark < c.aru);
    assert d.lastId == c.ring[0].cell.id || (d.aru == c.aru && d.lastId == c.lastId && d.ring[n - 1].cell.mark == -1);
    hide Visit, Dead, Paired, MayReset, A.DistinctIds, NoZero;
    forall i | 0 <= i < n - 1
      ensures MarkOk(d, last, i)
    {
      assert MarkOk(c, last, i + 1);
      if d.ring[i].cell.mark != -1 {
        if Dead(c, i + 1) {
          MarkBelow(c, last, i + 1);
          DeadStays(c, last, m, stops, i);
        } else {
          LiveStays(c, last, m, stops, i);
        }
      }
    }
    if d.lastId != c.ring[0].cell.id && d.aru < last {
      forall i | 0 <= i < n - 1
        ensures WriterOk(d, i)
      {
        WriterStays(c, last, m, stops, i);
      }
    }
    MarksSuffice(c, last, m, stops);
  }

  lemma MarkBelow(c: Core, last: int, i: nat)
    requires i < |c.ring| && MarkOk(c, last, i) && c.ring[i].cell.mark != -1
    ensures c.ring[i].cell.mark < last
  {
  }

  lemma WriterStays(c: Core, last: int, m: int, stops: set<int>, i: nat)
    requires CanVisit(c, last, m, stops) && i < |c.ring| - 1 && WriterOk(c, i + 1) && Settled(c, last)
    requires
      var d := Visit(c, last, m, stops);
      d.aru == c.aru && d.lastId == c.lastId && d.ring[|c.ring| - 1].cell.mark == -1
    ensures WriterOk(Visit(c, last, m, stops), i)
  {
    Shifted(c, last, m, stops);
    var d, n := Visit(c, last, m, stops), |c.ring|;
    hide Visit;
    if d.ring[i].cell.id == d.lastId {
      forall j | i <= j < n
        ensures d.ring[j].cell.prev <= d.aru
      {
        if j < n - 1 {
          assert d.ring[j] == c.ring[j + 1];
        }
      }
      forall j | i < j < n
        ensures d.ring[j].cell.mark == -1 || Dead(d, j)
      {
        if j < n - 1 && d.ring[j].cell.mark != -1 {
          assert Dead(c, j + 1) && MarkOk(c, last, j + 1);
          MarkBelow(c, last, j + 1);
          DeadStays(c, last, m, stops, j);
        }
      }
    }
  }

  /** The holder is the last writer, or the aru is at its top: all other marks are dead. */
  lemma OthersDead(c: Core, last: int, i: nat)
    requires NoZero(c, last) && Settled(c, last) && 0 < i < |c.ring|
    requires c.aru == last || c.ring[0].cell.id == c.lastId
    ensures c.ring[i].cell.mark == -1 || (Dead(c, i) && c.ring[i].cell.mark < last)
  {
    assert MarkOk(c, last, i);
    if c.aru < last {
      assert WriterOk(c, 0);
    }
  }

  /** The holder finds its own mark: what is left of the other marks. */
  lemma OwnMark(c: Core, last: int, m: int, stops: set<int>, i: nat)
    requires CanVisit(c, last, m, stops) && NoZero(c, last) && Settled(c, last) && 0 < i < |c.ring|
    requires c.aru == c.ring[0].cell.mark < last
    ensures MarkOk(Visit(c, last, m, stops), last, i - 1)
  {
    var d, n := Visit(c, last, m, stops), |c.ring|;
    Shifted(c, last, m, stops);
    assert d.aru == m && (m < last ==> d.ring[n - 1].cell.mark == m);
    assert MarkOk(c, last, 0) && MarkOk(c, last, i) && d.ring[i - 1] == c.ring[i];
    assert Live(c, last, 0);
    hide Visit;
    if c.ring[i].cell.mark != -1 {
      assert Below(c, 0, i);
      if Dead(c, i) {
        MarkBelow(c, last, i);
        DeadStays(c, last, m, stops, i - 1);
      } else if m != c.aru {
        PairBroken(c, last, m, stops, i);
      } else {
        PairTurned(c, last, m, stops, i);
        LiveStays(c, last, m, stops, i - 1);
      }
    }
  }

  lemma PairBroken(c: Core, last: int, m: int, stops: set<int>, i: nat)
    requires CanVisit(c, last, m, stops) && 0 < i < |c.ring| && Paired(c, 0, i)
    requires c.ring[0].cell.mark == c.aru != m && Visit(c, last, m, stops).aru == m
    ensures Dead(Visit(c, last, m, stops), i - 1)
  {
    Shifted(c, last, m, stops);
    var d := Visit(c, last, m, stops);
    hide Visit;
    forall k | 0 <= k < i - 1
      ensures d.ring[i - 1].cell.mark !in d.ring[k].stops
    {
      assert d.ring[k] == c.ring[k + 1];
    }
  }

  lemma PairTurned(c: Core, last: int, m: int, stops: set<int>, i: nat)
    requires CanVisit(c, last, m, stops) && 0 < i < |c.ring| && Paired(c, 0, i)
    requires c.ring[0].cell.mark == c.aru == m < last && Visit(c, last, m, stops).ring[|c.ring| - 1].cell.mark == m
    ensures Below(Visit(c, last, m, stops), i - 1, |c.ring| - 1)
  {
    Shifted(c, last, m, stops);
    var d, n := Visit(c, last, m, stops), |c.ring|;
    hide Visit;
    forall k | 0 <= k < n - 1 && k != i - 1
      ensures m !in d.ring[k].stops
    {
      assert d.ring[k] == c.ring[k + 1];
    }
    assert Paired(d, i - 1, n - 1);
  }

  lemma VisitKeepsSettled(c: Core, last: int, m: int, stops: set<int>)
    requires CanVisit(c, last, m, stops) && NoZero(c, last) && A.DistinctIds(Cells(c, last).ring)
    requires Settled(c, last)
    ensures Settled(Visit(c, last, m, stops), last)
  {
    var d, n := Visit(c, last, m, stops), |c.ring|;
    if !MayReset(c) {
      KeepingSettles(c, last, m, stops);
    } else {
      assert d.lastId == c.ring[0].cell.id;
      MarkBelowLast(c, last, 0);
      forall i | 0 <= i < n - 1
        ensures MarkOk(d, last, i)
      {
        if c.aru == last || c.ring[0].cell.id == c.lastId {
          OthersDead(c, last, i + 1);
          Shifted(c, last, m, stops);
          if c.ring[i + 1].cell.mark != -1 {
            DeadStays(c, last, m, stops, i);
          }
        } else {
          OwnMark(c, last, m, stops, i + 1);
        }
      }
      MarksSuffice(c, last, m, stops);
    }
  }

  // ----- the first visit

  lemma FirstVisitSettles(c: Core, last: int, m: int, stops: set<int>)
    requires Fresh(c, last) && Sound(c) && |c.ring| > 1 && NoZero(c, last) && CanVisit(c, last, m, stops)
    ensures Settled(Visit(c, last, m, stops), last)
  {
    Shifted(c, last, m, stops);
    var d, n := Visit(c, last, m, stops), |c.ring|;
    assert d.aru == m && (m < last ==> d.lastId == c.ring[0].cell.id && d.ring[n - 1].cell.mark == m);
    forall i | 0 <= i < n - 1
      ensures MarkOk(d, last, i)
    {
      FirstMarks(c, last, m, stops, i);
    }
    hide Sound, Fresh, Visit;
    assert A.DistinctIds(Cells(c, last).ring) by { FreshIds(c, last); }
    MarksSuffice(c, last, m, stops);
  }

  lemma FreshIds(c: Core, last: int)
    requires Fresh(c, last)
    ensures A.DistinctIds(Cells(c, last).ring)
  {
  }

  lemma FirstMarks(c: Core, last: int, m: int, stops: set<int>, i: nat)
    requires Fresh(c, last) && Sound(c) && NoZero(c, last) && CanVisit(c, last, m, stops) && i < |c.ring| - 1
    ensures MarkOk(Visit(c, last, m, stops), last, i)
  {
    Shifted(c, last, m, stops);
    var d, n := Visit(c, last, m, stops), |c.ring|;
    assert d.aru == m && (m < last ==> d.ring[n - 1].cell.mark == m);
    hide Visit;
    var v := d.ring[i].cell.mark;
    assert d.ring[i] == c.ring[i + 1];
    if v != m {
      forall k | 0 <= k < i
        ensures v !in d.ring[k].stops
      {
        assert d.ring[k] == c.ring[k + 1];
        assert !Clash(c, k + 1, i + 1);
      }
      assert Dead(d, i);
    } else {
      FirstLive(c, last, m, stops, i);
    }
  }

  /** A mark at which the first daemon really stops. */
  lemma FirstLive(c: Core, last: int, m: int, stops: set<int>, i: nat)
    requires Fresh(c, last) && Sound(c) && CanVisit(c, last, m, stops) && i < |c.ring| - 1
    requires c.ring[i + 1].cell.mark == m == Visit(c, last, m, stops).aru
    ensures Live(Visit(c, last, m, stops), last, i)
  {
    Shifted(c, last, m, stops);
    var d, n := Visit(c, last, m, stops), |c.ring|;
    hide Visit;
    assert m < last && m in c.ring[0].stops && !Clash(c, 0, i + 1);
    forall j | i <= j < n
      ensures d.ring[j].cell.prev <= m
    {
      assert j < n - 1 ==> d.ring[j] == c.ring[j + 1];
    }
    forall j | i < j < n
      ensures Below(d, i, j)
    {
      FirstBelow(c, last, m, stops, i, j);
    }
  }

  lemma FirstBelow(c: Core, last: int, m: int, stops: set<int>, i: nat, j: nat)
    requires Fresh(c, last) && Sound(c) && CanVisit(c, last, m, stops) && i < j < |c.ring|
    requires c.ring[i + 1].cell.mark == m == Visit(c, last, m, stops).aru && m in c.ring[0].stops
    ensures Below(Visit(c, last, m, stops), i, j)
  {
    Shifted(c, last, m, stops);
    var d, n := Visit(c, last, m, stops), |c.ring|;
    hide Visit;
    assert d.ring[i] == c.ring[i + 1] && !Clash(c, 0, i + 1);
    forall k | 0 <= k < n - 1 && k != i
      ensures m !in d.ring[k].stops
    {
      assert d.ring[k] == c.ring[k + 1];
      if k < i {
        assert !Clash(c, k + 1, i + 1);
      }
    }
    var v := d.ring[j].cell.mark;
    if v != -1 && v != m {
      assert d.ring[j] == c.ring[j + 1];
      forall k | 0 <= k < j
        ensures v !in d.ring[k].stops
      {
        assert d.ring[k] == c.ring[k + 1];
        assert !Clash(c, k + 1, j + 1);
      }
      assert Dead(d, j);
    } else if v == m {
      if j < n - 1 {
        assert d.ring[j] == c.ring[j + 1];
        assert !Clash(c, i + 1, j + 1);
      }
      assert Paired(d, i, j);
    }
  }

  // ----- all together

  lemma VisitKeepsInv(c: Core, last: int, m: int, stops: set<int>)
    requires Inv(c, last) && CanVisit(c, last, m, stops)
    ensures Inv(Visit(c, last, m, stops), last)
    ensures Visit(c, last, m, stops).aru <= m
  {
    VisitKeepsSafe(c, last, m, stops);
    if Settled(c, last) {
      VisitKeepsSettled(c, last, m, stops);
    } else {
      FirstVisitSettles(c, last, m, stops);
    }
  }

  /** A packet comes in between two visits. */
  function Receive(c: Core, i: nat, my: int, stops: set<int>): Core
    requires i < |c.ring|
  {
    c.(ring := c.ring[i := Member(c.ring[i].cell.(my := my), stops)])
  }

  lemma ReceiveKeepsInv(c: Core, last: int, i: nat, my: int, stops: set<int>)
    requires Inv(c, last) && i < |c.ring| && c.ring[i].cell.my <= my <= last && stops <= c.ring[i].stops
    ensures Inv(Receive(c, i, my, stops), last)
  {
    var d := Receive(c, i, my, stops);
    A.ReceiveKeepsSafe(Cells(c, last), i, my);
    assert Cells(d, last) == A.Receive(Cells(c, last), i, my);
    hide A.Safe;
    if Settled(c, last) {
      ReceiveSettles(c, last, i, my, stops);
    } else {
      assert Sound(d) by {
        forall b, x | 0 <= b < x < |d.ring|
          ensures !Clash(d, b, x)
        {
          assert !Clash(c, b, x);
        }
      }
    }
  }

  lemma ReceiveLive(c: Core, last: int, i: nat, my: int, stops: set<int>, j: nat)
    requires i < |c.ring| && stops <= c.ring[i].stops && j < |c.ring| && Live(c, last, j)
    ensures Live(Receive(c, i, my, stops), last, j)
  {
    var d := Receive(c, i, my, stops);
    forall k | j < k < |c.ring|
      ensures Below(d, j, k)
    {
      assert Below(c, j, k);
    }
  }

  lemma ReceiveSettles(c: Core, last: int, i: nat, my: int, stops: set<int>)
    requires Settled(c, last) && i < |c.ring| && stops <= c.ring[i].stops
    ensures Settled(Receive(c, i, my, stops), last)
  {
    var d := Receive(c, i, my, stops);
    forall j | 0 <= j < |c.ring|
      ensures Dead(c, j) ==> Dead(d, j)
    {
    }
    forall j | 0 <= j < |c.ring|
      ensures MarkOk(d, last, j)
    {
      assert MarkOk(c, last, j);
      if Live(c, last, j) {
        ReceiveLive(c, last, i, my, stops, j);
      }
    }
    hide Dead;
    if c.aru < last {
      forall j | 0 <= j < |c.ring|
        ensures WriterOk(d, j)
      {
        assert WriterOk(c, j);
      }
    }
  }
}

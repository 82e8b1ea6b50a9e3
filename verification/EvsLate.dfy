/** What one packet of the old ring that turns up late, numbered above everything the form token
    has seen, does to virtual synchrony: exactly when the daemons still agree. */
module EvsLate {
  import opened Outcomes
  import opened Protocol
  import opened FormToken
  import opened Evs
  import W = WindowInvariant

  /** The ordered deliveries of a daemon that finishes with this Highest_seq. */
  function Before(h: seq<Packet>, holes: set<int>, aru: nat, last: nat): seq<Delivery>
    requires aru <= last <= |h|
  {
    W.OrderedPrefix(h, Cut(h, holes, aru + 1, last) - 1)
  }

  function All(h: seq<Packet>, holes: set<int>, commit: set<int>, aru: nat, last: nat): seq<Delivery>
    requires aru <= last <= |h|
  {
    Before(h, holes, aru, last) + Rest(h, holes, commit, Cut(h, holes, aru + 1, last), last, false)
  }

  /** Packet q would be handed up in order after the signal. */
  predicate News(h: seq<Packet>, commit: set<int>, found: bool, q: int)
    requires 0 < q <= |h|
  {
    !Early(h[q - 1]) && (!found || h[q - 1].sender in commit)
  }

  ghost predicate NoNews(h: seq<Packet>, commit: set<int>, found: bool, last: int, last': int)
    requires 0 <= last && last' <= |h|
  {
    forall q :: last < q <= last' ==> !News(h, commit, found, q)
  }

  ghost predicate HasHole(holes: set<int>, q: int, last: int) {
    exists k :: q <= k <= last && k in holes
  }

  // ----- the rest, in two parts

  lemma {:induction false} RestSplits(h: seq<Packet>, holes: set<int>, commit: set<int>, q: int, last: int, last': int, found: bool)
    requires 0 < q <= last + 1 && last <= last' <= |h|
    ensures Rest(h, holes, commit, q, last', found)
            == Rest(h, holes, commit, q, last, found) + Rest(h, holes, commit, last + 1, last', found || HasHole(holes, q, last))
    decreases last - q
  {
    if last < q {
      assert [] + Rest(h, holes, commit, last + 1, last', found) == Rest(h, holes, commit, last + 1, last', found);
    } else {
      var f := found || q in holes;
      RestSplits(h, holes, commit, q + 1, last, last', f);
      assert (f || HasHole(holes, q + 1, last)) == (found || HasHole(holes, q, last)) by {
        if HasHole(holes, q, last) {
          var k :| q <= k <= last && k in holes;
          assert k == q || HasHole(holes, q + 1, last);
        }
        if HasHole(holes, q + 1, last) {
          var k :| q + 1 <= k <= last && k in holes;
          assert HasHole(holes, q, last);
        }
        if q in holes {
          assert HasHole(holes, q, last);
        }
      }
    }
  }

  lemma {:induction false} RestEmpty(h: seq<Packet>, holes: set<int>, commit: set<int>, q: int, last: int, found: bool)
    requires 0 < q && last <= |h| && forall k :: q <= k <= last ==> k !in holes
    ensures Rest(h, holes, commit, q, last, found) == [] <==> NoNews(h, commit, found, q - 1, last)
    decreases last - q
  {
    if q <= last {
      RestEmpty(h, holes, commit, q + 1, last, found);
      if NoNews(h, commit, found, q - 1, last) {
        assert !News(h, commit, found, q);
        assert NoNews(h, commit, found, q, last);
      }
      if Rest(h, holes, commit, q, last, found) == [] {
        assert Rest(h, holes, commit, q + 1, last, found) == [];
        assert NoNews(h, commit, found, q, last);
        assert !News(h, commit, found, q);
      }
    }
  }

  /** Without holes, the rest is simply the continuation of the order. */
  lemma {:induction false} RestContinues(h: seq<Packet>, holes: set<int>, commit: set<int>, q: int, last: int)
    requires 0 < q <= last + 1 && last <= |h| && forall k :: q <= k <= last ==> k !in holes
    ensures W.OrderedPrefix(h, q - 1) + Rest(h, holes, commit, q, last, false) == W.OrderedPrefix(h, last)
    decreases last - q
  {
    if q <= last {
      RestContinues(h, holes, commit, q + 1, last);
      var one := if Early(h[q - 1]) then [] else [Delivery(q, h[q - 1])];
      assert W.OrderedPrefix(h, q) == W.OrderedPrefix(h, q - 1) + one;
      Concat(W.OrderedPrefix(h, q - 1), one, Rest(h, holes, commit, q + 1, last, false));
    } else {
      assert W.OrderedPrefix(h, q - 1) + [] == W.OrderedPrefix(h, q - 1);
    }
  }

  // ----- the cut

  lemma {:induction false} CutExtends(h: seq<Packet>, holes: set<int>, q: int, last: int, last': int)
    requires 0 < q <= last + 1 && last <= last' <= |h|
    ensures Cut(h, holes, q, last) <= last ==> Cut(h, holes, q, last') == Cut(h, holes, q, last)
    ensures Cut(h, holes, q, last) == last + 1 ==>
              && Cut(h, holes, q, last') == Cut(h, holes, last + 1, last')
              && !HasHole(holes, q, last)
    ensures forall k :: q <= k < Cut(h, holes, q, last) ==> k !in holes
    decreases last - q
  {
    if q <= last {
      CutExtends(h, holes, q + 1, last, last');
    }
  }

  lemma SameWithoutNews(h: seq<Packet>, n: nat, c: nat, m: nat)
    requires n <= c <= m <= |h| && NoNews(h, {}, false, n, m)
    ensures W.OrderedPrefix(h, c) == W.OrderedPrefix(h, n)
    decreases c
  {
    if n < c {
      assert !News(h, {}, false, c);
      SameWithoutNews(h, n, c - 1, m);
    }
  }

  /** Two daemons that read the same entry and finish with different Highest_seq hand up the same
      if and only if none of the packets in between would be delivered in order: each is an early
      one, or lies beyond a hole and comes from outside the commit set. */
  lemma LateExactly(h: seq<Packet>, holes: set<int>, commit: set<int>, aru: nat, last: nat, last': nat)
    requires aru <= last <= last' <= |h| && forall k :: k in holes ==> aru < k <= last
    ensures
      (Before(h, holes, aru, last) == Before(h, holes, aru, last')
       && All(h, holes, commit, aru, last) == All(h, holes, commit, aru, last'))
      <==> NoNews(h, commit, HasHole(holes, aru + 1, last), last, last')
  {
    hide W.OrderedPrefix, Rest, Cut;
    var c, c' := Cut(h, holes, aru + 1, last), Cut(h, holes, aru + 1, last');
    CutExtends(h, holes, aru + 1, last, last');
    if c <= last {
      LateAfterCut(h, holes, commit, aru, last, last', c);
    } else {
      LateBeforeCut(h, holes, commit, aru, last, last', c');
    }
  }

  lemma LateAfterCut(h: seq<Packet>, holes: set<int>, commit: set<int>, aru: nat, last: nat, last': nat, c: int)
    requires aru <= last <= last' <= |h| && forall k :: k in holes ==> aru < k <= last
    requires c == Cut(h, holes, aru + 1, last) == Cut(h, holes, aru + 1, last') && aru < c <= last
    requires forall k :: aru < k < c ==> k !in holes
    ensures Before(h, holes, aru, last) == Before(h, holes, aru, last')
    ensures All(h, holes, commit, aru, last) == All(h, holes, commit, aru, last')
      <==> NoNews(h, commit, HasHole(holes, aru + 1, last), last, last')
  {
    hide W.OrderedPrefix, Rest, Cut;
    RestSplits(h, holes, commit, c, last, last', false);
    assert HasHole(holes, c, last) <==> HasHole(holes, aru + 1, last) by {
      if HasHole(holes, aru + 1, last) {
        var k :| aru + 1 <= k <= last && k in holes;
        assert c <= k;
      }
      if HasHole(holes, c, last) {
        var k :| c <= k <= last && k in holes;
        assert aru + 1 <= k;
      }
    }
    var more := Rest(h, holes, commit, last + 1, last', HasHole(holes, c, last));
    RestEmpty(h, holes, commit, last + 1, last', HasHole(holes, c, last));
    Concat(Before(h, holes, aru, last), Rest(h, holes, commit, c, last, false), more);
    assert All(h, holes, commit, aru, last') == All(h, holes, commit, aru, last) + more;
    assert more == [] ==> All(h, holes, commit, aru, last) + more == All(h, holes, commit, aru, last);
  }

  lemma LateBeforeCut(h: seq<Packet>, holes: set<int>, commit: set<int>, aru: nat, last: nat, last': nat, c': int)
    requires aru <= last <= last' <= |h| && forall k :: k in holes ==> aru < k <= last
    requires Cut(h, holes, aru + 1, last) == last + 1 <= c' == Cut(h, holes, aru + 1, last') <= last' + 1
    requires !HasHole(holes, aru + 1, last)
    ensures
      (Before(h, holes, aru, last) == Before(h, holes, aru, last')
       && All(h, holes, commit, aru, last) == All(h, holes, commit, aru, last'))
      <==> NoNews(h, commit, false, last, last')
  {
    hide W.OrderedPrefix, Cut;
    assert forall k :: k in holes ==> HasHole(holes, aru + 1, last);
    assert holes == {};
    RestContinues(h, holes, commit, c', last');
    assert Rest(h, holes, commit, last + 1, last, false) == [];
    assert All(h, holes, commit, aru, last) == W.OrderedPrefix(h, last);
    assert All(h, holes, commit, aru, last') == W.OrderedPrefix(h, last');
    RestContinues(h, holes, commit, last + 1, last');
    RestEmpty(h, holes, commit, last + 1, last', false);
    hide Rest;
    if NoNews(h, commit, false, last, last') {
      assert NoNews(h, {}, false, last, last') by {
        forall q | last < q <= last' ensures !News(h, {}, false, q) {
          assert !News(h, commit, false, q);
        }
      }
      SameWithoutNews(h, last, c' - 1, last');
      SameWithoutNews(h, last, last', last');
    }
  }

  /** The recovering daemons themselves. */
  lemma LateDaemons(r: Recovering, r': Recovering, e: RingInfo, commit: set<int>, h: seq<Packet>)
    requires EvsInv(r, e, h) && EvsInv(r', e, h) && r.win.highest <= r'.win.highest
    requires DiscardEvs(r, commit).Go? && DiscardEvs(r', commit).Go?
    ensures 0 <= r.win.highest && r'.win.highest <= |h|
    ensures
      var f, f' := DiscardEvs(r, commit).value, DiscardEvs(r', commit).value;
      (W.Ordered(f.before) == W.Ordered(f'.before) && W.Ordered(f.all) == W.Ordered(f'.all))
      <==> NoNews(h, commit, r.holes != {}, r.win.highest, r'.win.highest)
  {
    hide *;
    HolesBelow(r, e, h);
    HolesBelow(r', e, h);
    FinishIs(r, e, commit, h);
    FinishIs(r', e, commit, h);
    LateExactly(h, r.holes, commit, e.aru, r.win.highest, r'.win.highest);
    SomeHole(r.holes, e.aru, r.win.highest);
  }

  lemma HolesBelow(r: Recovering, e: RingInfo, h: seq<Packet>)
    requires EvsInv(r, e, h)
    ensures 0 <= e.aru <= r.win.highest <= |h| && r.holes == HoleSet(e)
    ensures forall k :: k in r.holes ==> e.aru < k <= r.win.highest
  {
    hide W.Ordered, W.OrderedPrefix, W.LogValid, W.Numbers;
  }

  lemma SomeHole(holes: set<int>, aru: int, last: int)
    requires forall k :: k in holes ==> aru < k <= last
    ensures HasHole(holes, aru + 1, last) <==> holes != {}
  {
    if exists k :: k in holes {
      var k :| k in holes;
      assert aru + 1 <= k <= last && k in holes;
    } else {
      assert holes == {};
    }
  }

  lemma FinishIs(r: Recovering, e: RingInfo, commit: set<int>, h: seq<Packet>)
    requires EvsInv(r, e, h) && DiscardEvs(r, commit).Go?
    ensures 0 <= e.aru <= r.win.highest <= |h|
    ensures W.Ordered(DiscardEvs(r, commit).value.before) == Before(h, r.holes, e.aru, r.win.highest)
    ensures W.Ordered(DiscardEvs(r, commit).value.all) == All(h, r.holes, commit, e.aru, r.win.highest)
  {
    hide W.Ordered, W.OrderedPrefix, Rest, Cut, DiscardEvs, EvsInv;
    FinishCanonical(r, e, commit, h);
  }

  /** A single late packet is enough: the daemon it reaches finishes like the others, and delivers
      one ordered packet more than they do. */
  lemma LateBreaks(r: Recovering, e: RingInfo, commit: set<int>, h: seq<Packet>)
    requires EvsInv(r, e, h) && HandedUpKept(r.win) && Complete(r)
    requires r.win.highest == e.highest < |h| && r.win.aru <= e.highest
    requires News(h, commit, false, e.highest + 1) && h[e.highest].sender in commit
    ensures
      var r' := Receive(r, e.highest + 1, h[e.highest]);
      && EvsInv(r', e, h)
      && DiscardEvs(r, commit).Go? && DiscardEvs(r', commit).Go?
      && var f, f' := DiscardEvs(r, commit).value, DiscardEvs(r', commit).value;
         !(W.Ordered(f.before) == W.Ordered(f'.before) && W.Ordered(f.all) == W.Ordered(f'.all))
  {
    var q := e.highest + 1;
    var r' := Receive(r, q, h[q - 1]);
    EvsBounds(r, e, h);
    LateArrives(r, e, h);
    hide *;
    assert News(h, commit, r.holes != {}, q) by { NewsAnyway(h, commit, r.holes != {}, q); }
    ReceiveKeeps(r, e, h, q);
    FinishesExactly(r, commit);
    FinishesExactly(r', commit);
    LateDaemons(r, r', e, commit, h);
    ThereIsNews(h, commit, r.holes != {}, q);
  }

  lemma NewsAnyway(h: seq<Packet>, commit: set<int>, found: bool, q: int)
    requires 0 < q <= |h| && News(h, commit, false, q) && h[q - 1].sender in commit
    ensures News(h, commit, found, q)
  {
  }

  lemma ThereIsNews(h: seq<Packet>, commit: set<int>, found: bool, q: int)
    requires 0 < q <= |h| && News(h, commit, found, q)
    ensures !NoNews(h, commit, found, q - 1, q)
  {
  }

  lemma LateArrives(r: Recovering, e: RingInfo, h: seq<Packet>)
    requires EvsInv(r, e, h) && Complete(r) && r.win.highest == e.highest < |h| && r.win.aru <= e.highest
    ensures
      var r' := Receive(r, e.highest + 1, h[e.highest]);
      Complete(r') && r'.win.highest == e.highest + 1
  {
    var q := e.highest + 1;
    var r' := Receive(r, q, h[q - 1]);
    assert !Exists(r, q);
    forall k | r'.win.lastDiscarded < k <= r'.win.highest
      ensures Exists(r', k)
    {
      assert k == q || Exists(r, k);
    }
  }
}

/** Exactly when recovery is free of trouble: from every start that is not sound there is a run on
    which a daemon installs the new membership while another one still misses packets. */
module EvsTrouble {
  import opened Outcomes
  import opened Protocol
  import opened FormToken
  import opened Evs
  import opened EvsRing
  import A = AruCore
  import K = EvsCore
  import D = EvsDeck

  // ----- the deck of a ring

  function ToCard(d: Survivor): D.Card {
    D.Card(d.id, Level(d.r), d.mark, d.prev)
  }

  function ToCards(ring: seq<Survivor>): (cs: seq<D.Card>)
    ensures |cs| == |ring| && forall i :: 0 <= i < |ring| ==> cs[i] == ToCard(ring[i])
  {
    seq(|ring|, i requires 0 <= i < |ring| => ToCard(ring[i]))
  }

  function ToDeck(s: Sys): D.Deck
    requires s.Up?
  {
    D.Deck(ToCards(s.ring), s.token.aru, s.token.lastId)
  }

  /** Nothing is asked for, and nobody has finished. */
  ghost predicate Quiet(s: Sys, past: Past) {
    && s.Up? && |s.ring| > 1 && 0 < past.lastSeq && 0 <= s.token.aru
    && DistinctDaemons(s.ring)
    && (forall ring :: Requested(s.token, ring) == [])
    && (forall i :: 0 <= i < |s.ring| ==> QuietMember(s.ring[i], past))
  }

  ghost predicate QuietMember(d: Survivor, past: Past) {
    MemberOk(d, past) && d.r.win.aru <= d.r.win.myAru && d.finish.None?
  }

  ghost predicate SomeLow(d: D.Deck, last: int) {
    exists i :: 0 <= i < |d.cards| && d.cards[i].level < last
  }

  lemma {:induction false} AdvanceTo(r: Recovering, my: int, goal: int)
    requires my <= goal <= r.win.highest && forall q :: my < q <= goal ==> Exists(r, q)
    requires goal == r.win.highest || MissesNext(r, goal)
    ensures AdvanceOver(r, my) == goal
    decreases goal - my
  {
    if my < goal {
      assert Exists(r, my + 1);
      AdvanceTo(r, my + 1, goal);
    }
  }

  /** A visit does not change where the daemon stands. */
  lemma LevelStays(r: Recovering, e: RingInfo, h: seq<Packet>, aru: int)
    requires EvsInv(r, e, h)
    ensures Level(Visit(r, aru)) == Level(r)
  {
    EvsNumbers(r, e, h);
    AdvanceOverFacts(r, r.win.myAru);
    AdvanceStops(r, r.win.myAru);
    var r1, my := Visit(r, aru), AdvanceOver(r, r.win.myAru);
    assert forall q :: Exists(r1, q) <==> Exists(r, q);
    hide EvsInv, Exists;
    if my < r.win.highest {
      assert MissesNext(r1, my);
      AdvanceTo(r1, my, my);
    }
  }

  lemma LowIsUncommitted(d: Survivor, past: Past)
    requires MemberOk(d, past)
    ensures d.r.committed ==> Level(d.r) == past.lastSeq
    ensures 0 <= Level(d.r) <= past.lastSeq
  {
    var e, h := past.entries[d.ring], past.history[d.ring];
    LevelFacts(d.r, e, h, 0);
    EvsNumbers(d.r, e, h);
    hide EvsInv, Level, Stops;
  }

  // ----- one visit

  lemma FinishWhen(d: Survivor, t: EvsToken, room: nat, commit: set<int>)
    requires VisitToken(d, t, room, commit).Go? && d.finish.None?
    ensures
      var aru := A.Min(Stamped(d, t).aru, d.prev);
      VisitToken(d, t, room, commit).value.daemon.finish.Some?
      <==> aru == Visit(d.r, aru).lastSeq && aru > Visit(d.r, aru).win.lastDiscarded
  {
    VisitFields(d.r, A.Min(Stamped(d, t).aru, d.prev));
    hide Answerable, Stamped, Visit, DiscardEvs, Wanted;
  }

  lemma TurnIsVisit(s: Sys, past: Past, t: EvsToken, v: Visited)
    requires Quiet(s, past) && t == s.token && VisitedAs(s.ring[0], t, v)
    ensures ToDeck(Up(s.ring[1..] + [v.daemon], v.token)) == D.Turn(ToDeck(s), past.lastSeq)
  {
    var d, last := s.ring[0], past.lastSeq;
    assert QuietMember(d, past);
    StampHere(d, past, t);
    StampFacts(d, t, last);
    LevelStays(d.r, past.entries[d.ring], past.history[d.ring], A.Min(Stamped(d, t).aru, d.prev));
    hide Level, Stamped, Visit, QuietMember, DistinctDaemons, Requested;
    var a, b := ToDeck(Up(s.ring[1..] + [v.daemon], v.token)), D.Turn(ToDeck(s), last);
    var n := |s.ring|;
    assert a.cards[n - 1] == b.cards[n - 1];
    forall i | 0 <= i < n - 1
      ensures a.cards[i] == b.cards[i]
    {
      assert a.cards[i] == ToCard(s.ring[i + 1]) == ToDeck(s).cards[i + 1];
    }
  }

  lemma NoRequests(r: Recovering)
    ensures Wanted(r, AdvanceOver(r, r.win.myAru) + 1, A.Min(r.win.highest, AdvanceOver(r, r.win.myAru) + 0)) == []
  {
    hide AdvanceOver;
  }

  /** The holder's visit is a turn of the deck; it finishes exactly when the deck says so. */
  lemma QuietVisit(s: Sys, past: Past) returns (s': Sys)
    requires Quiet(s, past)
    ensures Enabled(s, PassToken(0, false), past) && s' == Apply(s, PassToken(0, false), past)
    ensures s'.Up? && |s'.ring| == |s.ring| && ToDeck(s') == D.Turn(ToDeck(s), past.lastSeq)
    ensures s'.ring[|s.ring| - 1].finish.Some? <==> D.Finishing(ToDeck(s), past.lastSeq)
    ensures forall i :: 0 <= i < |s.ring| - 1 ==> s'.ring[i] == s.ring[i + 1]
    ensures s'.ring[|s.ring| - 1].finish.None? ==> Quiet(s', past)
    ensures
      var d, e := s.ring[0], s'.ring[|s.ring| - 1];
      e.r.win.aru == A.Min(s'.token.aru, d.prev) && e.ring == d.ring
  {
    var d, t := s.ring[0], s.token;
    assert QuietMember(d, past);
    s' := Apply(s, PassToken(0, false), past);
    NothingRequested(d.r.win.aru);
    VisitGoes(d, past, t, 0);
    FinishWhen(d, t, 0, Commit(past, d.ring));
    var v := VisitToken(d, t, 0, Commit(past, d.ring)).value;
    TurnIsVisit(s, past, t, v);
    NoRequests(d.r);
    VisitedId(d, t, v);
    Rotated(s.ring, v.daemon);
    hide VisitToken, MemberOk, Level, Stamped, Visit, AdvanceOver, Wanted, DistinctDaemons;
    assert s' == Up(s.ring[1..] + [v.daemon], v.token);
    HolderAfter(d, past, t, v);
    assert forall ring :: Requested(v.token, ring) == [] by {
      forall ring
        ensures Requested(v.token, ring) == []
      {
        assert Requested(t, ring) == [];
      }
    }
    assert A.Min(v.token.aru, d.prev) == past.lastSeq <==> D.Finishing(ToDeck(s), past.lastSeq);
  }

  /** Its Aru is no more than it has, and the finishing test is that of the deck. */
  lemma HolderAfter(d: Survivor, past: Past, t: EvsToken, v: Visited)
    requires QuietMember(d, past) && VisitedAs(d, t, v) && v.token.aru <= Level(d.r) && 0 <= v.token.aru
    ensures v.daemon.r.win.aru <= v.daemon.r.win.myAru && v.daemon.r.win.aru == A.Min(v.token.aru, d.prev)
    ensures Visit(d.r, A.Min(Stamped(d, t).aru, d.prev)).lastSeq == past.lastSeq
    ensures Visit(d.r, A.Min(Stamped(d, t).aru, d.prev)).win.lastDiscarded < past.lastSeq
    ensures v.token.aru <= past.lastSeq && Stamped(d, t).aru == v.token.aru
    ensures A.Min(v.token.aru, d.prev) == past.lastSeq <==> d.prev == past.lastSeq && v.token.aru == past.lastSeq
  {
    VisitFields(d.r, A.Min(Stamped(d, t).aru, d.prev));
    EvsNumbers(d.r, past.entries[d.ring], past.history[d.ring]);
    LowIsUncommitted(d, past);
    PrevBelow(d, past);
    hide Level, Stamped, Visit, EvsInv, HandedUpKept, DiscardEvs;
  }

  /** Nobody has forwarded an aru above what it had. */
  lemma PrevBelow(d: Survivor, past: Past)
    requires MemberOk(d, past)
    ensures d.prev <= past.lastSeq
  {
  }

  // ----- many visits

  lemma ReachesSelf(s: Sys, past: Past)
    ensures Reaches(s, s, past)
  {
    assert Path([s], s, s, past);
  }

  lemma ReachesStep(from: Sys, s: Sys, step: EvsRing.Step, past: Past)
    requires Reaches(from, s, past) && Enabled(s, step, past)
    ensures Reaches(from, Apply(s, step, past), past)
  {
    var path :| Path(path, from, s, past);
    var t := Apply(s, step, past);
    var longer := path + [t];
    hide Enabled, Apply;
    assert Next(s, t, past);
    forall i | 0 <= i < |longer| - 1
      ensures Next(longer[i], longer[i + 1], past)
    {
      if i < |path| - 1 {
        assert Next(path[i], path[i + 1], past);
      }
    }
    assert Path(longer, from, t, past);
  }

  lemma TurnKeepsLow(d: D.Deck, last: int)
    requires |d.cards| > 0 && SomeLow(d, last)
    ensures SomeLow(D.Turn(d, last), last)
  {
    var e, n := D.Turn(d, last), |d.cards|;
    var i :| 0 <= i < n && d.cards[i].level < last;
    assert e.cards[n - 1].level == d.cards[0].level;
    if i > 0 {
      assert e.cards[i - 1] == d.cards[i];
    }
  }

  /** If the holder finishes while somebody stands below the top, it is too early. */
  lemma FinishIsEarly(s: Sys, s': Sys, past: Past)
    requires Quiet(s, past) && SomeLow(ToDeck(s), past.lastSeq) && D.Finishing(ToDeck(s), past.lastSeq)
    requires s'.Up? && |s'.ring| == |s.ring| && s'.ring[|s.ring| - 1].finish.Some?
    requires forall i :: 0 <= i < |s.ring| - 1 ==> s'.ring[i] == s.ring[i + 1]
    ensures EarlyFinish(s')
  {
    var i :| 0 <= i < |s.ring| && ToDeck(s).cards[i].level < past.lastSeq;
    assert QuietMember(s.ring[i], past);
    LowIsUncommitted(s.ring[i], past);
    assert QuietMember(s.ring[0], past);
    LowIsUncommitted(s.ring[0], past);
    TopFinishes(ToDeck(s), past);
    hide Level, MemberOk, D.Turn;
    assert i > 0 && s'.ring[i - 1] == s.ring[i] && !s'.ring[i - 1].r.committed;
  }

  lemma TopFinishes(d: D.Deck, past: Past)
    requires |d.cards| > 0 && D.Finishing(d, past.lastSeq) && d.cards[0].level <= past.lastSeq
    ensures d.cards[0].level == past.lastSeq
  {
  }

  /** k visits: either somebody finishes early, or the deck has made k turns. */
  lemma {:induction false} Drive(from: Sys, s: Sys, k: nat, past: Past) returns (s': Sys)
    requires Reaches(from, s, past) && Quiet(s, past) && SomeLow(ToDeck(s), past.lastSeq)
    ensures s'.Up? && Reaches(from, s', past)
    ensures EarlyFinish(s') || (Quiet(s', past) && SomeLow(ToDeck(s'), past.lastSeq) && |s'.ring| == |s.ring|
                                && ToDeck(s') == D.Turns(ToDeck(s), k, past.lastSeq))
  {
    hide Quiet, SomeLow, Reaches, EarlyFinish, ToDeck, D.Turn, Enabled, Apply;
    QuietUp(s, past);
    if k == 0 {
      s' := s;
    } else {
      var t := Drive(from, s, k - 1, past);
      if EarlyFinish(t) {
        s' := t;
      } else {
        QuietUp(t, past);
        s' := QuietVisit(t, past);
        ReachesStep(from, t, PassToken(0, false), past);
        TurnKeepsLow(ToDeck(t), past.lastSeq);
        if s'.ring[|t.ring| - 1].finish.Some? {
          FinishIsEarly(t, s', past);
        }
      }
    }
  }

  lemma QuietUp(s: Sys, past: Past)
    requires Quiet(s, past)
    ensures s.Up? && |s.ring| > 1 && |ToDeck(s).cards| == |s.ring|
  {
  }

  /** k visits that bring the deck to where its holder finishes. */
  lemma DriveToFinish(from: Sys, s: Sys, k: nat, past: Past) returns (s': Sys)
    requires Reaches(from, s, past) && Quiet(s, past) && SomeLow(ToDeck(s), past.lastSeq)
    requires D.Finishing(D.Turns(ToDeck(s), k, past.lastSeq), past.lastSeq)
    ensures s'.Up? && Reaches(from, s', past) && EarlyFinish(s')
  {
    hide Quiet, SomeLow, Reaches, EarlyFinish, ToDeck, D.Turn, Enabled, Apply, D.Finishing;
    QuietUp(s, past);
    var t := Drive(from, s, k, past);
    if EarlyFinish(t) {
      s' := t;
    } else {
      QuietUp(t, past);
      s' := QuietVisit(t, past);
      ReachesStep(from, t, PassToken(0, false), past);
      FinishIsEarly(t, s', past);
    }
  }

  // ----- delivering what a daemon misses

  /** d has got the packets from..upTo, and is otherwise as it was. */
  ghost predicate Fed(d: Survivor, d': Survivor, from: int, upTo: int) {
    && d' == d.(r := d'.r)
    && d'.r.win.highest == d.r.win.highest && (d'.r.committed <==> d.r.committed)
    && d.r.win.myAru <= d'.r.win.myAru && d'.r.win.aru == d.r.win.aru
    && (forall q :: Exists(d.r, q) ==> Exists(d'.r, q))
    && (forall q :: Exists(d'.r, q) ==> Exists(d.r, q) || from <= q <= upTo)
    && (forall q :: from <= q <= upTo ==> Exists(d'.r, q))
  }

  lemma FedOne(d: Survivor, past: Past, q: int)
    requires QuietMember(d, past) && d.r.win.aru < q && 0 < q <= d.r.win.highest
    requires past.entries[d.ring].highest <= |past.history[d.ring]|
    ensures QuietMember(Received(d, q, past), past) && Fed(d, Received(d, q, past), q, q)
  {
    ReceivedFacts(d.r, past.entries[d.ring], past.history[d.ring], q);
    var r1 := Received(d, q, past).r;
    hide EvsInv, HandedUpKept, AdvanceOver, DiscardEvs;
    assert forall k :: Exists(r1, k) <==> Exists(d.r, k) || k == q;
  }

  lemma HighestSent(d: Survivor, past: Past)
    requires MemberOk(d, past)
    ensures past.entries[d.ring].highest == d.r.win.highest <= |past.history[d.ring]|
    ensures 0 <= past.entries[d.ring].aru <= d.r.win.myAru
  {
    EvsBounds(d.r, past.entries[d.ring], past.history[d.ring]);
    EvsNumbers(d.r, past.entries[d.ring], past.history[d.ring]);
  }

  lemma FedMore(d: Survivor, d1: Survivor, d2: Survivor, from: int, q: int)
    requires Fed(d, d1, from, q - 1) && Fed(d1, d2, q, q) && from <= q
    ensures Fed(d, d2, from, q)
  {
  }

  /** Everything about s' but member i is as in s. */
  ghost predicate OnlyAt(s: Sys, s': Sys, i: nat) {
    && s.Up? && s'.Up? && |s'.ring| == |s.ring| && s'.token == s.token && i < |s.ring|
    && forall j :: 0 <= j < |s.ring| && j != i ==> s'.ring[j] == s.ring[j]
  }

  lemma QuietAt(s: Sys, s': Sys, i: nat, past: Past)
    requires Quiet(s, past) && OnlyAt(s, s', i) && QuietMember(s'.ring[i], past) && s'.ring[i].id == s.ring[i].id
    ensures Quiet(s', past)
  {
    hide QuietMember;
  }

  lemma {:induction false} Feed(from: Sys, s: Sys, i: nat, upTo: int, past: Past) returns (s': Sys)
    requires Reaches(from, s, past) && Quiet(s, past) && i < |s.ring|
    requires s.ring[i].r.win.myAru <= upTo <= s.ring[i].r.win.highest
    ensures Reaches(from, s', past) && Quiet(s', past) && OnlyAt(s, s', i)
    ensures Fed(s.ring[i], s'.ring[i], s.ring[i].r.win.myAru + 1, upTo)
    decreases upTo - s.ring[i].r.win.myAru
  {
    var d := s.ring[i];
    assert QuietMember(d, past);
    HighestSent(d, past);
    hide QuietMember, Quiet, Fed, Reaches;
    if upTo == d.r.win.myAru {
      s' := s;
      assert Fed(d, d, d.r.win.myAru + 1, upTo) by { FedNone(d, upTo); }
    } else {
      var t := Feed(from, s, i, upTo - 1, past);
      FedFields(d, t.ring[i], d.r.win.myAru + 1, upTo - 1);
      QuietHere(t, i, past);
      HighestSent(t.ring[i], past);
      FedOne(t.ring[i], past, upTo);
      assert Enabled(t, Arrive(i, upTo), past) by { QuietFields(t, i, past); }
      s' := Apply(t, Arrive(i, upTo), past);
      ReachesStep(from, t, Arrive(i, upTo), past);
      assert s'.ring[i] == Received(t.ring[i], upTo, past);
      QuietAt(t, s', i, past);
      FedMore(d, t.ring[i], s'.ring[i], d.r.win.myAru + 1, upTo);
    }
  }

  lemma FedNone(d: Survivor, upTo: int)
    ensures Fed(d, d, upTo + 1, upTo)
  {
  }

  lemma FedFields(d: Survivor, d': Survivor, from: int, upTo: int)
    requires Fed(d, d', from, upTo)
    ensures d' == d.(r := d'.r) && d'.r.win.highest == d.r.win.highest && d'.r.win.aru == d.r.win.aru
    ensures (d'.r.committed <==> d.r.committed) && d.r.win.myAru <= d'.r.win.myAru
  {
  }

  lemma QuietHere(s: Sys, i: nat, past: Past)
    requires Quiet(s, past) && i < |s.ring|
    ensures QuietMember(s.ring[i], past) && MemberOk(s.ring[i], past) && s.ring[i].r.win.aru <= s.ring[i].r.win.myAru
  {
  }

  lemma QuietFields(s: Sys, i: nat, past: Past)
    requires Quiet(s, past) && i < |s.ring|
    ensures s.ring[i].finish.None? && s.ring[i].ring in past.entries && s.ring[i].ring in past.history
  {
  }

  /** Where a daemon can be brought to stand. */
  ghost predicate CanStand(r: Recovering, target: int, last: int) {
    !r.committed && (target == last || target in Stops(r))
  }

  lemma FedStands(d: Survivor, d': Survivor, target: int, past: Past)
    requires MemberOk(d, past) && MemberOk(d', past) && CanStand(d.r, target, past.lastSeq)
    requires Fed(d, d', d.r.win.myAru + 1, if target == past.lastSeq then d.r.win.highest else target)
    ensures ToCard(d') == ToCard(d).(level := target)
  {
    var e, h := past.entries[d'.ring], past.history[d'.ring];
    var goal := if target == past.lastSeq then d.r.win.highest else target;
    EvsNumbers(d'.r, e, h);
    EvsNumbers(d.r, e, h);
    StandsBelow(d'.r, e, h, goal);
    hide EvsInv, HandedUpKept, DiscardEvs;
    if goal < d.r.win.highest {
      assert MissesNext(d.r, goal) && MissesNext(d'.r, goal);
    }
    AdvanceTo(d'.r, d'.r.win.myAru, goal);
    hide AdvanceOver;
  }

  /** My_aru has not jumped over a packet that is missing. */
  lemma StandsBelow(r: Recovering, e: RingInfo, h: seq<Packet>, goal: int)
    requires EvsInv(r, e, h) && !r.committed
    ensures goal >= e.aru && MissesNext(r, goal) ==> r.win.myAru <= goal
    ensures r.win.myAru <= r.win.highest
  {
    hide Recoverable;
    EvsBounds(r, e, h);
  }

  lemma Stand(from: Sys, s: Sys, i: nat, target: int, past: Past) returns (s': Sys)
    requires Reaches(from, s, past) && Quiet(s, past) && i < |s.ring| && CanStand(s.ring[i].r, target, past.lastSeq)
    ensures Reaches(from, s', past) && Quiet(s', past) && OnlyAt(s, s', i)
    ensures ToCard(s'.ring[i]) == ToCard(s.ring[i]).(level := target) && s'.ring[i].ring == s.ring[i].ring
  {
    QuietUp(s, past);
    hide Quiet, Reaches, Fed, Level;
    QuietHere(s, i, past);
    Reachable(s.ring[i], target, past);
    s' := Feed(from, s, i, if target == past.lastSeq then s.ring[i].r.win.highest else target, past);
    QuietHere(s', i, past);
    FedFields(s.ring[i], s'.ring[i], s.ring[i].r.win.myAru + 1, if target == past.lastSeq then s.ring[i].r.win.highest else target);
    FedStands(s.ring[i], s'.ring[i], target, past);
  }

  lemma Reachable(d: Survivor, target: int, past: Past)
    requires MemberOk(d, past) && CanStand(d.r, target, past.lastSeq)
    ensures d.r.win.myAru <= (if target == past.lastSeq then d.r.win.highest else target) <= d.r.win.highest
  {
    EvsNumbers(d.r, past.entries[d.ring], past.history[d.ring]);
  }

  /** Every daemon of a ring that has just read its entries is brought to stand where it is told. */
  lemma {:induction false} StandAll(s: Sys, k: nat, targets: seq<int>, past: Past) returns (s': Sys)
    requires Quiet(s, past) && k <= |s.ring| == |targets|
    requires forall i :: 0 <= i < |s.ring| ==> CanStand(s.ring[i].r, targets[i], past.lastSeq)
    ensures Reaches(s, s', past) && Quiet(s', past) && |s'.ring| == |s.ring| && s'.token == s.token
    ensures forall i :: 0 <= i < |s.ring| ==>
              && (i < k ==> ToCard(s'.ring[i]) == ToCard(s.ring[i]).(level := targets[i]))
              && (i >= k ==> s'.ring[i] == s.ring[i]) && s'.ring[i].ring == s.ring[i].ring
  {
    hide Quiet, Reaches, ToCard, CanStand;
    if k == 0 {
      ReachesSelf(s, past);
      s' := s;
    } else {
      var t := StandAll(s, k - 1, targets, past);
      s' := Stand(s, t, k - 1, targets[k - 1], past);
    }
  }

  lemma ReadyQuiet(s: Sys, past: Past)
    requires Ready(s, past) && |s.ring| > 1
    ensures Quiet(s, past)
    ensures forall i :: 0 <= i < |s.ring| ==> !s.ring[i].r.committed && s.ring[i].mark < past.lastSeq && s.ring[i].prev == 0
  {
    forall i | 0 <= i < |s.ring|
      ensures QuietMember(s.ring[i], past) && !s.ring[i].r.committed && s.ring[i].mark < past.lastSeq && s.ring[i].prev == 0
    {
      assert ReadyMember(s.ring[i], past);
      ReadyMemberOk(s.ring[i], past);
      EvsNumbers(s.ring[i].r, past.entries[s.ring[i].ring], past.history[s.ring[i].ring]);
    }
    hide QuietMember, ReadyMember;
  }

  /** The targets are where the daemons can be brought to stand. */
  ghost predicate Targets(s: Sys, targets: seq<int>, past: Past) {
    s.Up? && |targets| == |s.ring| &&
    forall i :: 0 <= i < |s.ring| ==> targets[i] == past.lastSeq || targets[i] in Stops(s.ring[i].r)
  }

  ghost predicate Prepared(s: Sys, targets: seq<int>, s': Sys, past: Past) {
    && s.Up? && |targets| == |s.ring| && s'.Up?
    && Reaches(s, s', past) && Quiet(s', past) && |s'.ring| == |s.ring| > 1
    && D.Dealt(ToDeck(s'), past.lastSeq)
    && forall i :: 0 <= i < |s.ring| ==>
         && ToDeck(s').cards[i] == ToCard(s.ring[i]).(level := targets[i])
         && s'.ring[i].ring == s.ring[i].ring
  }

  lemma Prepare(s: Sys, targets: seq<int>, past: Past) returns (s': Sys)
    requires Ready(s, past) && |s.ring| > 1 && Targets(s, targets, past)
    ensures Prepared(s, targets, s', past)
  {
    ReadyQuiet(s, past);
    hide Quiet, Reaches, Level, Stops, ReadyMember;
    forall i | 0 <= i < |s.ring|
      ensures CanStand(s.ring[i].r, targets[i], past.lastSeq)
    {
    }
    hide CanStand;
    s' := StandAll(s, |s.ring|, targets, past);
    QuietUp(s', past);
    forall i | 0 <= i < |s.ring|
      ensures ToDeck(s').cards[i] == ToCard(s.ring[i]).(level := targets[i])
      ensures 0 <= targets[i] <= past.lastSeq
    {
      assert ToDeck(s').cards[i] == ToCard(s'.ring[i]);
      TargetRange(s, targets, i, past);
    }
  }

  lemma TargetRange(s: Sys, targets: seq<int>, i: nat, past: Past)
    requires Ready(s, past) && Targets(s, targets, past) && i < |s.ring|
    ensures 0 <= targets[i] <= past.lastSeq
  {
    var d := s.ring[i];
    assert ReadyMember(d, past);
    StopsInRange(d.r, past.entries[d.ring], past.history[d.ring]);
    hide ReadyMember, Stops;
  }

  // ----- an unsound start

  /** Everybody is to have everything, but for b, which is to stop at v. */
  function OneTarget(s: Sys, b: nat, v: int, last: int): seq<int>
    requires s.Up? && b < |s.ring|
  {
    seq(|s.ring|, i => last)[b := v]
  }

  lemma LowAt(d: D.Deck, i: nat, last: int)
    requires i < |d.cards| && d.cards[i].level < last
    ensures SomeLow(d, last)
  {
  }

  lemma FromZero(s: Sys, b: nat, past: Past) returns (t: Sys)
    requires Ready(s, past) && |s.ring| > 1 && b < |s.ring| && 0 in Stops(s.ring[b].r)
    ensures t.Up? && Reaches(s, t, past) && EarlyFinish(t)
  {
    hide Ready, Quiet, Reaches, EarlyFinish, Stops, D.Turn, D.Turns, SomeLow;
    ReadyLast(s, past);
    var targets := OneTarget(s, b, 0, past.lastSeq);
    var s' := Prepare(s, targets, past);
    var d := ToDeck(s');
    LowAt(d, b, past.lastSeq);
    if b == 0 {
      D.ZeroFirst(d, past.lastSeq);
      t := DriveToFinish(s, s', |s.ring| + 1, past);
    } else {
      D.ZeroLater(d, past.lastSeq, b);
      t := DriveToFinish(s, s', |s.ring|, past);
    }
  }

  lemma ReadyLast(s: Sys, past: Past)
    requires Ready(s, past)
    ensures s.Up? && 0 < past.lastSeq
  {
  }

  /** The first member after b whose mark is v. */
  lemma {:induction false} FirstMarkAfter(s: Sys, b: nat, x: nat, v: int) returns (y: nat)
    requires s.Up? && b < x < |s.ring| && s.ring[x].mark == v
    ensures b < y <= x && s.ring[y].mark == v && forall i :: b < i < y ==> s.ring[i].mark != v
  {
    y := b + 1;
    while s.ring[y].mark != v
      invariant b < y <= x && forall i :: b < i < y ==> s.ring[i].mark != v
      decreases x - y
    {
      y := y + 1;
    }
  }

  lemma FromClashLater(s: Sys, b: nat, x: nat, past: Past) returns (t: Sys)
    requires Ready(s, past) && 0 < b < x < |s.ring| && s.ring[x].mark in Stops(s.ring[b].r) && s.ring[x].mark != 0
    ensures t.Up? && Reaches(s, t, past) && EarlyFinish(t)
  {
    var v := s.ring[x].mark;
    StopBelow(s, b, v, past);
    hide Ready, Quiet, Reaches, EarlyFinish, Stops, D.Turn, D.Turns, SomeLow;
    ReadyLast(s, past);
    var y := FirstMarkAfter(s, b, x, v);
    var targets := OneTarget(s, b, v, past.lastSeq);
    var s' := Prepare(s, targets, past);
    var d := ToDeck(s');
    LowAt(d, b, past.lastSeq);
    D.ClashLater(d, past.lastSeq, b, y, v);
    t := DriveToFinish(s, s', |s.ring|, past);
  }

  lemma StopBelow(s: Sys, b: nat, v: int, past: Past)
    requires Ready(s, past) && b < |s.ring| && v in Stops(s.ring[b].r)
    ensures 0 <= v < past.lastSeq
  {
    var d := s.ring[b];
    assert ReadyMember(d, past);
    StopsInRange(d.r, past.entries[d.ring], past.history[d.ring]);
    hide Stops, ReadyMember;
  }

  lemma FromClashFirst(s: Sys, x: nat, z: nat, past: Past) returns (t: Sys)
    requires Ready(s, past) && 0 < x < z < |s.ring| && s.ring[x].mark != 0
    requires s.ring[x].mark in Stops(s.ring[0].r) && s.ring[x].mark in Stops(s.ring[z].r)
    ensures t.Up? && Reaches(s, t, past) && EarlyFinish(t)
  {
    var v, last, n := s.ring[x].mark, past.lastSeq, |s.ring|;
    StopBelow(s, 0, v, past);
    hide Ready, Quiet, Reaches, EarlyFinish, Stops, D.Turn, D.Turns, SomeLow, D.RoundDone, Prepared, ToDeck;
    ReadyLast(s, past);
    var y := FirstMarkAfter(s, 0, x, v);
    var targets := OneTarget(s, 0, v, last)[z := v];
    var s' := Prepare(s, targets, past);
    PreparedFirst(s, targets, s', y, z, v, past);
    var u := Drive(s, s', n, past);
    if EarlyFinish(u) {
      t := u;
    } else {
      t := SecondRound(s, u, y, z, v, past);
    }
  }

  lemma PreparedFirst(s: Sys, targets: seq<int>, s': Sys, y: nat, z: nat, v: int, past: Past)
    requires Prepared(s, targets, s', past) && 0 < y < z < |s.ring| && 0 < v < past.lastSeq
    requires targets == OneTarget(s, 0, v, past.lastSeq)[z := v]
    requires s.ring[y].mark == v && forall i :: 0 < i < y ==> s.ring[i].mark != v
    ensures s'.Up? && Reaches(s, s', past) && Quiet(s', past) && SomeLow(ToDeck(s'), past.lastSeq)
    ensures |ToDeck(s').cards| == |s.ring|
    ensures D.RoundDone(D.Turns(ToDeck(s'), |s.ring|, past.lastSeq), y, v, past.lastSeq)
    ensures D.Turns(ToDeck(s'), |s.ring|, past.lastSeq).cards[0].level == v
    ensures D.Turns(ToDeck(s'), |s.ring|, past.lastSeq).cards[z].level == v
  {
    hide Quiet, Reaches, D.Turn, D.RoundDone, D.Turns;
    var d := ToDeck(s');
    LowAt(d, z, past.lastSeq);
    D.ClashFirst(d, past.lastSeq, y, z, v);
    D.RoundLevels(d, |s.ring|, past.lastSeq, 0);
    D.RoundLevels(d, |s.ring|, past.lastSeq, z);
  }

  /** The first of the ring gets its packets between its two visits. */
  lemma SecondRound(from: Sys, u: Sys, y: nat, z: nat, v: int, past: Past) returns (t: Sys)
    requires Reaches(from, u, past) && Quiet(u, past) && 0 < y < z < |u.ring| && 0 < v < past.lastSeq
    requires D.RoundDone(ToDeck(u), y, v, past.lastSeq)
    requires ToDeck(u).cards[0].level == v && ToDeck(u).cards[z].level == v
    ensures t.Up? && Reaches(from, t, past) && EarlyFinish(t)
  {
    QuietUp(u, past);
    hide Quiet, Reaches, EarlyFinish, Stops, D.Turn, D.Turns, SomeLow, Level;
    QuietHere(u, 0, past);
    LowIsUncommitted(u.ring[0], past);
    assert !u.ring[0].r.committed;
    var w := Stand(from, u, 0, past.lastSeq, past);
    var d, e := ToDeck(u), ToDeck(w);
    FirstRaised(u, w, past.lastSeq);
    LowAt(e, z, past.lastSeq);
    D.ClashEnd(e, y, v, past.lastSeq);
    t := DriveToFinish(from, w, y, past);
  }

  lemma FirstRaised(u: Sys, w: Sys, last: int)
    requires OnlyAt(u, w, 0) && ToCard(w.ring[0]) == ToCard(u.ring[0]).(level := last)
    ensures |ToDeck(w).cards| == |ToDeck(u).cards| && ToDeck(w).aru == ToDeck(u).aru
    ensures ToDeck(w).cards[0] == ToDeck(u).cards[0].(level := last)
    ensures forall i :: 0 < i < |u.ring| ==> ToDeck(w).cards[i] == ToDeck(u).cards[i]
  {
    hide ToCard;
    forall i | 0 < i < |u.ring|
      ensures ToDeck(w).cards[i] == ToDeck(u).cards[i]
    {
      assert w.ring[i] == u.ring[i];
    }
  }

  // ----- the theorem

  /** Recovery stays out of trouble on every run, whatever packets are lost, delayed or repeated, if
      and only if the start is sound: there is one daemon only; or nobody can be without packet 1,
      and no daemon's old Set_aru is a number at which an earlier one may stop, unless that earlier
      one is the leader and nobody behind may stop there too. */
  lemma TroubleFreeExactly(s: Sys, past: Past)
    requires Ready(s, past)
    ensures Sound(s) <==> forall t :: Reaches(s, t, past) ==> !Trouble(t)
  {
    if Sound(s) {
      forall t | Reaches(s, t, past)
        ensures !Trouble(t)
      {
        SoundRuns(s, t, past);
      }
    } else {
      var t := UnsoundRun(s, past);
      assert Trouble(t);
    }
  }

  /** The same for early finishes alone. */
  lemma NobodyFinishesEarlyExactly(s: Sys, past: Past)
    requires Ready(s, past)
    ensures Sound(s) <==> forall t :: Reaches(s, t, past) && t.Up? ==> !EarlyFinish(t)
  {
    if Sound(s) {
      forall t | Reaches(s, t, past) && t.Up?
        ensures !EarlyFinish(t)
      {
        SoundRuns(s, t, past);
        assert !Trouble(t);
      }
    } else {
      var t := UnsoundRun(s, past);
    }
  }

  lemma UnsoundRun(s: Sys, past: Past) returns (t: Sys)
    requires Ready(s, past) && !Sound(s)
    ensures t.Up? && Reaches(s, t, past) && EarlyFinish(t)
  {
    hide Ready, Reaches, EarlyFinish, Stops;
    ReadyLast(s, past);
    var c := ToCore(s);
    assert forall i :: 0 <= i < |s.ring| ==> c.ring[i] == ToMember(s.ring[i]);
    if b: nat :| b < |s.ring| && 0 in c.ring[b].stops {
      t := FromZero(s, b, past);
    } else {
      var b: nat, x: nat :| b < x < |c.ring| && K.Clash(c, b, x);
      assert c.ring[x].cell.mark == s.ring[x].mark && c.ring[b].stops == Stops(s.ring[b].r);
      if b > 0 {
        t := FromClashLater(s, b, x, past);
      } else {
        var z: nat :| x < z < |c.ring| && c.ring[x].cell.mark in c.ring[z].stops;
        t := FromClashFirst(s, x, z, past);
      }
    }
  }

  // ----- a run into the EXIT alarm

  /** k visits later: those in front are as they were; those at the back have taken the lower of
      the two arus they forwarded for their Aru. */
  ghost predicate Went(s: Sys, s': Sys, k: nat) {
    && s.Up? && s'.Up? && k <= |s.ring| == |s'.ring|
    && (forall i :: 0 <= i < |s.ring| - k ==> s'.ring[i] == s.ring[k + i])
    && forall i :: |s.ring| - k <= i < |s.ring| ==>
         var d, e := s.ring[i - |s.ring| + k], s'.ring[i];
         e.ring == d.ring && e.r.win.aru == A.Min(e.prev, d.prev)
  }

  lemma WentOne(s: Sys, u: Sys, s': Sys, k: nat)
    requires 0 < k && Went(s, u, k - 1) && k <= |s.ring| && s'.Up? && |s'.ring| == |u.ring|
    requires forall i :: 0 <= i < |u.ring| - 1 ==> s'.ring[i] == u.ring[i + 1]
    requires
      var d, e := u.ring[0], s'.ring[|u.ring| - 1];
      e.ring == d.ring && e.r.win.aru == A.Min(e.prev, d.prev)
    ensures Went(s, s', k)
  {
    assert u.ring[0] == s.ring[k - 1 + 0];
  }

  lemma TurnPrev(d: D.Deck, last: int)
    requires |d.cards| > 0
    ensures D.Turn(d, last).cards[|d.cards| - 1].prev == D.Turn(d, last).aru
  {
  }

  /** k visits during which nobody finishes. */
  lemma {:induction false} Calm(from: Sys, s: Sys, k: nat, past: Past) returns (s': Sys)
    requires Reaches(from, s, past) && Quiet(s, past) && k <= |s.ring|
    requires forall j :: 0 <= j < k ==> !D.Finishing(D.Turns(ToDeck(s), j, past.lastSeq), past.lastSeq)
    ensures Reaches(from, s', past) && Quiet(s', past) && Went(s, s', k)
    ensures ToDeck(s') == D.Turns(ToDeck(s), k, past.lastSeq)
  {
    hide Quiet, Reaches, D.Turn, D.Finishing, Went, Enabled, Apply;
    QuietUp(s, past);
    if k == 0 {
      s' := s;
      assert Went(s, s, 0) by { WentNone(s); }
    } else {
      var u := Calm(from, s, k - 1, past);
      QuietUp(u, past);
      s' := QuietVisit(u, past);
      ReachesStep(from, u, PassToken(0, false), past);
      TurnPrev(ToDeck(u), past.lastSeq);
      WentSize(s, u, k - 1);
      assert ToDeck(s').cards[|u.ring| - 1] == ToCard(s'.ring[|u.ring| - 1]);
      WentOne(s, u, s', k);
    }
  }

  lemma WentNone(s: Sys)
    requires s.Up?
    ensures Went(s, s, 0)
  {
  }

  lemma WentSize(s: Sys, s': Sys, k: nat)
    requires Went(s, s', k)
    ensures s.Up? && s'.Up? && |s'.ring| == |s.ring|
    ensures forall i :: 0 <= i < |s.ring| - k ==> s'.ring[i] == s.ring[k + i]
    ensures k == |s.ring| ==> forall i :: 0 <= i < |s.ring| ==>
              s'.ring[i].ring == s.ring[i].ring && s'.ring[i].r.win.aru == A.Min(s'.ring[i].prev, s.ring[i].prev)
  {
  }

  /** The leader stops at 0, the next daemon at w; two rounds later everybody else's Aru is w. */
  lemma TwoRounds(s: Sys, s0: Sys, w: int, past: Past) returns (s': Sys)
    requires Reaches(s, s0, past) && Quiet(s0, past) && D.Halting(ToDeck(s0), w, past.lastSeq)
    requires forall i :: 0 <= i < |s0.ring| ==> s0.ring[i].prev < past.lastSeq
    ensures Reaches(s, s', past) && Quiet(s', past) && |s'.ring| == |s0.ring|
    ensures D.Halting(ToDeck(s'), w, past.lastSeq) && D.Warm(ToDeck(s'), w)
    ensures forall i :: 0 <= i < |s0.ring| ==> s'.ring[i].ring == s0.ring[i].ring && (i > 0 ==> s'.ring[i].r.win.aru == w)
  {
    var last, n := past.lastSeq, |s0.ring|;
    QuietUp(s0, past);
    hide Quiet, Reaches, D.Turns, D.Finishing, Went, Level;
    var d0 := ToDeck(s0);
    forall j | 0 <= j < n
      ensures !D.Finishing(D.Turns(d0, j, last), last)
    {
      D.ColdGoesOn(d0, j, last);
    }
    var s1 := Calm(s, s0, n, past);
    D.ColdRound(d0, w, last);
    WentSize(s0, s1, n);
    var d1 := ToDeck(s1);
    forall j | 0 <= j < n
      ensures !D.Finishing(D.Turns(d1, j, last), last)
    {
      D.WarmGoesOn(d1, j, w, last);
    }
    s' := Calm(s, s1, n, past);
    D.ColdRound(d1, w, last);
    D.WarmRound(d1, n, w, last);
    WentSize(s1, s', n);
    forall i | 0 < i < n
      ensures s'.ring[i].r.win.aru == w
    {
      assert ToDeck(s').cards[i] == ToCard(s'.ring[i]) && d1.cards[i] == ToCard(s1.ring[i]);
    }
  }

  /** The same system with a request for packet 1 of one old ring on the token. */
  ghost predicate Pending(s: Sys, t: Sys, ring: int) {
    && s.Up? && t.Up? && t.ring == s.ring && t.token.aru == s.token.aru && t.token.lastId == s.token.lastId
    && Requested(t.token, ring) == [1]
    && forall other :: other != ring ==> Requested(t.token, other) == []
  }

  /** What a visit does to the daemon and the aru does not depend on what it asks for. */
  lemma RequestsApart(d: Survivor, t: EvsToken, t': EvsToken, room: nat, commit: set<int>)
    requires t'.aru == t.aru && t'.lastId == t.lastId && Requested(t, d.ring) == Requested(t', d.ring) == []
    requires VisitToken(d, t, 0, commit).Go?
    ensures VisitToken(d, t', room, commit).Go?
    ensures
      var v, v' := VisitToken(d, t, 0, commit).value, VisitToken(d, t', room, commit).value;
      && v'.daemon == v.daemon && v'.token.aru == v.token.aru && v'.token.lastId == v.token.lastId
      && v'.token.rtr == t'.rtr[d.ring := Wanted(d.r, AdvanceOver(d.r, d.r.win.myAru) + 1,
                                                 A.Min(d.r.win.highest, AdvanceOver(d.r, d.r.win.myAru) + room))]
  {
    hide Answerable, Visit, Level, DiscardEvs, Wanted, AdvanceOver;
    assert Stamped(d, t) == Stamped(d, t');
    hide Stamped;
  }

  lemma PendingVisit(s: Sys, t: Sys, ring: int, past: Past)
    requires Quiet(s, past) && Pending(s, t, ring) && s.ring[0].ring != ring
    requires Enabled(s, PassToken(0, false), past) && Apply(s, PassToken(0, false), past).Up?
    ensures Enabled(t, PassToken(0, false), past)
    ensures Pending(Apply(s, PassToken(0, false), past), Apply(t, PassToken(0, false), past), ring)
  {
    var d := s.ring[0];
    assert Requested(s.token, d.ring) == [];
    hide Quiet;
    RequestsApart(d, s.token, t.token, 0, Commit(past, d.ring));
    NoRequests(d.r);
    hide VisitToken, Wanted, AdvanceOver;
    var v := VisitToken(d, t.token, 0, Commit(past, d.ring)).value;
    assert Apply(t, PassToken(0, false), past) == Up(s.ring[1..] + [v.daemon], v.token);
    OneRequest(t.token, v.token, d.ring, []);
  }

  lemma OneRequest(t: EvsToken, t': EvsToken, ring: int, wanted: seq<int>)
    requires t'.rtr == t.rtr[ring := wanted]
    ensures Requested(t', ring) == wanted && forall other :: other != ring ==> Requested(t', other) == Requested(t, other)
  {
  }

  /** The leader asks for packet 1. */
  lemma AskForFirst(s: Sys, past: Past)
    requires Quiet(s, past) && Level(s.ring[0].r) == 0
    requires Enabled(s, PassToken(0, false), past) && Apply(s, PassToken(0, false), past).Up?
    ensures Enabled(s, PassToken(1, false), past)
    ensures Pending(Apply(s, PassToken(0, false), past), Apply(s, PassToken(1, false), past), s.ring[0].ring)
  {
    var d := s.ring[0];
    QuietHere(s, 0, past);
    LevelFacts(d.r, past.entries[d.ring], past.history[d.ring], 0);
    EvsNumbers(d.r, past.entries[d.ring], past.history[d.ring]);
    assert forall ring :: Requested(s.token, ring) == [];
    hide Quiet, EvsInv, HandedUpKept, MemberOk;
    RequestsApart(d, s.token, s.token, 1, Commit(past, d.ring));
    hide VisitToken, DiscardEvs, Level;
    assert AdvanceOver(d.r, d.r.win.myAru) == 0 && MissesNext(d.r, 0) && 0 < d.r.win.highest;
    assert Wanted(d.r, 1, 1) == [1] + Wanted(d.r, 2, 1) == [1];
    hide Wanted, AdvanceOver;
    var v := VisitToken(d, s.token, 1, Commit(past, d.ring)).value;
    assert Apply(s, PassToken(1, false), past) == Up(s.ring[1..] + [v.daemon], v.token);
    OneRequest(s.token, v.token, d.ring, [1]);
  }

  /** k visits of which the first leaves a request on the token that concerns none of the others. */
  lemma {:induction false} AskOn(from: Sys, s: Sys, w: int, k: nat, past: Past) returns (u: Sys, t: Sys)
    requires Reaches(from, s, past) && Quiet(s, past) && 0 < k < |s.ring|
    requires D.Halting(ToDeck(s), w, past.lastSeq) && D.Warm(ToDeck(s), w)
    requires forall j :: 0 < j < k ==> s.ring[j].ring != s.ring[0].ring
    ensures Quiet(u, past) && Went(s, u, k) && ToDeck(u) == D.Turns(ToDeck(s), k, past.lastSeq)
    ensures Reaches(from, t, past) && Pending(u, t, s.ring[0].ring)
  {
    hide Quiet, Reaches, D.Turn, D.Finishing, Went, Pending, Enabled, Apply, Level, D.Halting, D.Warm;
    QuietUp(s, past);
    D.WarmGoesOn(ToDeck(s), k - 1, w, past.lastSeq);
    var from', before := s, s;
    if k == 1 {
      LeaderLow(s, w, past);
      assert Went(s, s, 0) by { WentNone(s); }
      u := QuietVisit(s, past);
      AskForFirst(s, past);
      t := Apply(s, PassToken(1, false), past);
      ReachesStep(from, s, PassToken(1, false), past);
    } else {
      var u1, t1 := AskOn(from, s, w, k - 1, past);
      before := u1;
      QuietUp(u1, past);
      WentSize(s, u1, k - 1);
      assert u1.ring[0] == s.ring[k - 1 + 0];
      u := QuietVisit(u1, past);
      PendingVisit(u1, t1, s.ring[0].ring, past);
      t := Apply(t1, PassToken(0, false), past);
      ReachesStep(from, t1, PassToken(0, false), past);
    }
    TurnPrev(ToDeck(before), past.lastSeq);
    assert ToDeck(u).cards[|s.ring| - 1] == ToCard(u.ring[|s.ring| - 1]);
    WentOne(s, before, u, k);
  }

  lemma LeaderLow(s: Sys, w: int, past: Past)
    requires s.Up? && D.Halting(ToDeck(s), w, past.lastSeq)
    ensures |s.ring| > 1 && Level(s.ring[0].r) == 0
  {
    assert ToDeck(s).cards[0] == ToCard(s.ring[0]);
    hide Level;
  }

  /** The leader has everything but packet 1, the daemon behind it stops at w, beyond packet 1. Each
      visit of the leader lowers the aru to 0, each visit of the next daemon overwrites that with w.
      After two rounds everybody but the leader has Aru w, so when the leader's next request comes
      to x, the first of its old ring behind it, x takes the EXIT alarm. */
  lemma ExitRun(s: Sys, x: nat, w: int, past: Past) returns (t: Sys)
    requires Ready(s, past) && 0 < x < |s.ring| && s.ring[x].ring == s.ring[0].ring
    requires forall i :: 0 < i < x ==> s.ring[i].ring != s.ring[0].ring
    requires 0 in Stops(s.ring[0].r) && w in Stops(s.ring[1].r) && w >= 2
    ensures Reaches(s, t, past) && t == Down("Answer_retrans: retrans requested below Aru")
  {
    StopBelow(s, 1, w, past);
    ReadyLast(s, past);
    hide *;
    var s0 := HaltTwo(s, w, past);
    QuietUp(s0, past);
    var s2 := TwoRounds(s, s0, w, past);
    QuietUp(s2, past);
    t := AskAndExit(s, s2, x, w, past);
  }

  lemma AskAndExit(from: Sys, s: Sys, x: nat, w: int, past: Past) returns (t: Sys)
    requires Reaches(from, s, past) && Quiet(s, past) && 0 < x < |s.ring| && w >= 2
    requires D.Halting(ToDeck(s), w, past.lastSeq) && D.Warm(ToDeck(s), w)
    requires s.ring[x].ring == s.ring[0].ring && s.ring[x].r.win.aru == w
    requires forall i :: 0 < i < x ==> s.ring[i].ring != s.ring[0].ring
    ensures Reaches(from, t, past) && t == Down("Answer_retrans: retrans requested below Aru")
  {
    hide *;
    var u, t1 := AskOn(from, s, w, x, past);
    WentSize(s, u, x);
    assert u.ring[0] == s.ring[x + 0];
    t := RequestIsFatal(from, u, t1, s.ring[0].ring, past);
  }

  lemma HaltTwo(s: Sys, w: int, past: Past) returns (s0: Sys)
    requires Ready(s, past) && |s.ring| > 1 && 0 < w < past.lastSeq
    requires 0 in Stops(s.ring[0].r) && w in Stops(s.ring[1].r)
    ensures Reaches(s, s0, past) && Quiet(s0, past) && |s0.ring| == |s.ring| && D.Halting(ToDeck(s0), w, past.lastSeq)
    ensures forall i :: 0 <= i < |s0.ring| ==> s0.ring[i].prev < past.lastSeq && s0.ring[i].ring == s.ring[i].ring
  {
    ReadyQuiet(s, past);
    ReadyLast(s, past);
    hide Ready, Quiet, Reaches, Level, Stops, D.Halting;
    s0 := Prepare(s, seq(|s.ring|, i => past.lastSeq)[0 := 0][1 := w], past);
    PreparedHalting(s, s0, w, past);
  }

  lemma PreparedHalting(s: Sys, s0: Sys, w: int, past: Past)
    requires s.Up? && |s.ring| > 1 && 0 < w < past.lastSeq
    requires Prepared(s, seq(|s.ring|, i => past.lastSeq)[0 := 0][1 := w], s0, past)
    requires forall i :: 0 <= i < |s.ring| ==> s.ring[i].prev == 0
    ensures D.Halting(ToDeck(s0), w, past.lastSeq)
    ensures forall i :: 0 <= i < |s0.ring| ==> s0.ring[i].prev == 0 && s0.ring[i].ring == s.ring[i].ring
  {
    hide Quiet, Reaches, Level;
    forall i | 0 <= i < |s0.ring|
      ensures s0.ring[i].prev == 0
    {
      assert ToDeck(s0).cards[i] == ToCard(s0.ring[i]);
    }
  }

  lemma RequestIsFatal(s: Sys, u: Sys, t1: Sys, ring: int, past: Past) returns (t: Sys)
    requires Quiet(u, past) && Pending(u, t1, ring) && Reaches(s, t1, past)
    requires u.ring[0].ring == ring && u.ring[0].r.win.aru >= 2
    ensures Reaches(s, t, past) && t == Down("Answer_retrans: retrans requested below Aru")
  {
    QuietUp(u, past);
    QuietFields(u, 0, past);
    hide Quiet, Reaches;
    t := Apply(t1, PassToken(0, false), past);
    ReachesStep(s, t1, PassToken(0, false), past);
    assert !Answerable(u.ring[0].r.win, [1]) by { assert [1][0] < u.ring[0].r.win.aru; }
  }
}

/** Recovery as part of the daemon's life: from a run of the old ring through both passes of the form
    token to the last delivery, with all members of the new ring at work. */
module EvsRuns {
  import opened Outcomes
  import opened Protocol
  import opened FormToken
  import opened Evs
  import opened EvsRing
  import A = AruCore
  import R = Ring
  import E = EvsTheorems
  import W = WindowInvariant

  // ----- from a run of the old ring to the start of recovery

  lemma MarkInRange(s: R.Sys, i: nat)
    requires R.Inv(s) && i < |s.ring|
    ensures -1 <= s.ring[i].daemon.mark <= |s.history|
  {
    hide W.Inv, R.ArqOk, R.Fits, R.RequestsOk, R.FlowSum, R.MemberOk;
    var c := R.ToCore(s);
    MarkInCore(c, i);
    assert c.ring[i] == R.ToCell(s.ring[i].daemon);
  }

  lemma MarkInCore(c: A.Core, i: nat)
    requires A.Inv(c) && i < |c.ring|
    ensures -1 <= c.ring[i].mark <= c.seqNo
  {
  }

  /** Whoever has been visited by the form token and reads the entry that comes of it starts the
      recovery in order, with the Set_aru it had; so EvsRing starts where Ring ends. */
  lemma ReadyFromRun(s: R.Sys, chosen: seq<nat>, commits: seq<seq<int>>, k: nat, w: Window, ring: int, past: Past)
    requires R.Inv(s) && E.Chosen(s, chosen, commits) && k < |chosen|
    requires ring in past.history && past.history[ring] == s.history && |s.history| < past.lastSeq
    requires
      var ps := E.Visited(s, chosen, commits);
      && FormToken.Entry(ps).Go?
      && ring in past.entries && past.entries[ring] == FormToken.Entry(ps).value
      && E.Between(ps[k].win, w, past.entries[ring], s.history)
    ensures ReadForm2(w, past.entries[ring], past.lastSeq).Go?
    ensures
      var d := s.ring[chosen[k]].daemon;
      ReadyMember(Survivor(d.id, ring, ReadForm2(w, past.entries[ring], past.lastSeq).value, d.mark, 0, None), past)
  {
    var ps, h, e := E.Visited(s, chosen, commits), s.history, past.entries[ring];
    E.RunIsOldRing(s, chosen, commits);
    EntryExact(ps, h);
    E.BetweenIsReadable(ps, h, e, k, w);
    E.BetweenNoHoles(ps[k].win, w, ps[k].win, w, e, h);
    ReadForm2Exact(w, e, past.lastSeq, h);
    ReadHandedUp(w, e, past.lastSeq, h);
    MarkInRange(s, chosen[k]);
    hide R.Inv, EvsInv, HandedUpKept, E.Between;
    ReadFields(w, e, past.lastSeq, h);
  }

  lemma ReadFields(w: Window, e: RingInfo, lastSeq: int, h: seq<Packet>)
    requires Readable(w, e, h) && ReadForm2(w, e, lastSeq).Go?
    ensures
      var r := ReadForm2(w, e, lastSeq).value;
      r.win.highest == e.highest && r.win.aru == e.aru && !r.committed && r.lastSeq == lastSeq
  {
    FirstDiscard(w, e, h);
    hide Discard, Readable;
  }

  // ----- agreement, on every run

  ghost predicate Members(s: Sys, past: Past) {
    s.Up? && 0 <= s.token.aru && forall i :: 0 <= i < |s.ring| ==> MemberOk(s.ring[i], past)
  }

  lemma NextKeepsMembers(s: Sys, s': Sys, past: Past)
    requires Members(s, past) && Next(s, s', past) && s'.Up?
    ensures Members(s', past)
  {
    hide MemberOk, Answerable;
    var step :| Enabled(s, step, past) && s' == Apply(s, step, past);
    match step
    case PassToken(room, hurried) =>
      var d, t := s.ring[0], Copy(s.token, hurried);
      assert MemberOk(d, past);
      AnsweredMeans(d, t, room, past);
      VisitGoes(d, past, t, room);
      var v := VisitToken(d, t, room, Commit(past, d.ring)).value;
      hide VisitToken;
      forall i | 0 <= i < |s'.ring|
        ensures MemberOk(s'.ring[i], past)
      {
        assert i < |s.ring| - 1 ==> s'.ring[i] == s.ring[i + 1];
      }
    case Arrive(i, q) =>
      ArrivedMember(s.ring[i], past, q);
  }

  lemma AnsweredMeans(d: Survivor, t: EvsToken, room: nat, past: Past)
    requires MemberOk(d, past) && VisitToken(d, t, room, Commit(past, d.ring)).Go?
    ensures AllFrom(Requested(t, d.ring), d.r.win.aru)
  {
    hide Stamped, Visit, Wanted, DiscardEvs, EvsInv, HandedUpKept;
  }

  lemma ArrivedMember(d: Survivor, past: Past, q: int)
    requires MemberOk(d, past) && d.finish.None? && 0 < q <= past.entries[d.ring].highest <= |past.history[d.ring]|
    ensures MemberOk(Received(d, q, past), past)
  {
    ReceivedFacts(d.r, past.entries[d.ring], past.history[d.ring], q);
    hide EvsInv, HandedUpKept, Receive, DiscardEvs;
  }

  lemma {:induction false} PathKeepsMembers(path: seq<Sys>, s: Sys, t: Sys, past: Past)
    requires Path(path, s, t, past) && Members(s, past) && t.Up?
    ensures Members(t, past)
    decreases |path|
  {
    hide Members, Next;
    if |path| > 1 {
      var n := |path| - 1;
      UpBefore(path[n - 1], t, past);
      PathKeepsMembers(path[..n], s, path[n - 1], past);
      NextKeepsMembers(path[n - 1], t, past);
    }
  }

  lemma UpBefore(s: Sys, s': Sys, past: Past)
    requires Next(s, s', past)
    ensures s.Up?
  {
  }

  lemma ReadyMembers(s: Sys, past: Past)
    requires Ready(s, past)
    ensures Members(s, past)
  {
    forall i | 0 <= i < |s.ring|
      ensures MemberOk(s.ring[i], past)
    {
      ReadyMemberOk(s.ring[i], past);
    }
  }

  /** What a member has handed up in its old membership by the time it installs the new one. */
  ghost predicate SameHandedUp(f: Finish, f': Finish) {
    W.Ordered(f.before) == W.Ordered(f'.before) && W.Ordered(f.all) == W.Ordered(f'.all)
  }

  /** On every run, sound or not: any two that come from one old ring and have installed the new
      membership have handed up the same ordered packets, with the signal at the same place. */
  lemma FinishedAgree(s: Sys, t: Sys, past: Past, i: nat, j: nat)
    requires Ready(s, past) && Reaches(s, t, past) && t.Up? && i < |t.ring| && j < |t.ring|
    requires t.ring[i].ring == t.ring[j].ring && t.ring[i].finish.Some? && t.ring[j].finish.Some?
    ensures SameHandedUp(t.ring[i].finish.value, t.ring[j].finish.value)
  {
    hide Ready, EvsInv, HandedUpKept, DiscardEvs;
    ReadyMembers(s, past);
    var path :| Path(path, s, t, past);
    PathKeepsMembers(path, s, t, past);
    var a, b := t.ring[i], t.ring[j];
    assert MemberOk(a, past) && MemberOk(b, past);
    var e, h, commit := past.entries[a.ring], past.history[a.ring], Commit(past, a.ring);
    assert a.r.holes == HoleSet(e) == b.r.holes by { SameHoles(a.r, e, h); SameHoles(b.r, e, h); }
    FinishCanonical(a.r, e, commit, h);
    FinishCanonical(b.r, e, commit, h);
  }

  lemma SameHoles(r: Recovering, e: RingInfo, h: seq<Packet>)
    requires EvsInv(r, e, h)
    ensures r.holes == HoleSet(e)
  {
  }

  // ----- what is handed up, packet by packet

  /** No hole and no SAFE packet. */
  predicate Plain(h: seq<Packet>, holes: set<int>, y: int)
    requires 0 < y <= |h|
  {
    y !in holes && !h[y - 1].service.Safe?
  }

  ghost predicate AllPlain(h: seq<Packet>, holes: set<int>, from: int, to: int)
    requires 0 < from && to <= |h|
  {
    forall y :: from <= y <= to ==> Plain(h, holes, y)
  }

  lemma {:induction false} CutMeans(h: seq<Packet>, holes: set<int>, q: int, last: int, x: int)
    requires 0 < q <= x <= last <= |h|
    ensures x < Cut(h, holes, q, last) <==> AllPlain(h, holes, q, x)
    decreases last - q
  {
    if Plain(h, holes, q) && q < x {
      CutMeans(h, holes, q + 1, last, x);
    }
  }

  lemma {:induction false} PrefixMeans(h: seq<Packet>, n: nat, x: int)
    requires n <= |h| && 0 < x <= |h|
    ensures Delivery(x, h[x - 1]) in W.OrderedPrefix(h, n) <==> x <= n && !Early(h[x - 1])
    decreases n
  {
    if n > 0 {
      PrefixMeans(h, n - 1, x);
      var one := if Early(h[n - 1]) then [] else [Delivery(n, h[n - 1])];
      assert Delivery(x, h[x - 1]) in one <==> x == n && !Early(h[n - 1]);
    }
  }

  ghost predicate NoHoleIn(holes: set<int>, from: int, to: int) {
    forall y :: from <= y < to ==> y !in holes
  }

  ghost predicate InRest(h: seq<Packet>, holes: set<int>, commit: set<int>, q: int, last: int, found: bool, x: int)
    requires 0 < x <= |h|
  {
    && q <= x <= last && x !in holes && !Early(h[x - 1])
    && (h[x - 1].sender in commit || (!found && NoHoleIn(holes, q, x)))
  }

  lemma NoHoleStep(holes: set<int>, q: int, x: int)
    requires q < x
    ensures NoHoleIn(holes, q, x) <==> q !in holes && NoHoleIn(holes, q + 1, x)
  {
  }

  lemma {:induction false} RestMeans(h: seq<Packet>, holes: set<int>, commit: set<int>, q: int, last: int, found: bool, x: int)
    requires 0 < q && last <= |h| && 0 < x <= |h|
    ensures Delivery(x, h[x - 1]) in Rest(h, holes, commit, q, last, found) <==> InRest(h, holes, commit, q, last, found, x)
    decreases last - q
  {
    hide Early, NoHoleIn;
    if q <= last {
      RestMeans(h, holes, commit, q + 1, last, found || q in holes, x);
      hide InRest;
      InRestStep(h, holes, commit, q, last, found, x);
    }
  }

  lemma InRestStep(h: seq<Packet>, holes: set<int>, commit: set<int>, q: int, last: int, found: bool, x: int)
    requires 0 < q <= last <= |h| && 0 < x <= |h|
    ensures InRest(h, holes, commit, q, last, found, x)
      <==> || InRest(h, holes, commit, q + 1, last, found || q in holes, x)
           || (q == x && q !in holes && !Early(h[q - 1]) && (!found || h[q - 1].sender in commit))
  {
    if q < x {
      NoHoleStep(holes, q, x);
      hide NoHoleIn;
    }
    hide Early;
  }

  /** Packet x of a ring with this entry is handed up, in order, before the signal: no hole and no
      SAFE packet lies between the entry's aru and it. */
  ghost predicate BeforeTheSignal(e: RingInfo, h: seq<Packet>, x: int)
    requires 0 < x <= |h| && 0 <= e.aru
  {
    !Early(h[x - 1]) && AllPlain(h, HoleSet(e), e.aru + 1, x)
  }

  /** It is handed up at all: it is no hole, and if it comes behind one its sender is in the commit set. */
  ghost predicate EverHandedUp(e: RingInfo, h: seq<Packet>, x: int)
    requires 0 < x <= |h|
  {
    !Early(h[x - 1]) && x !in e.holes && (h[x - 1].sender in e.commit || forall y :: e.aru < y < x ==> y !in e.holes)
  }

  /** On every run: which packets a daemon that has installed the new membership has handed up in the
      old one, and which of them before the signal. */
  lemma HandedUpExactly(s: Sys, t: Sys, past: Past, i: nat, x: int)
    requires Ready(s, past) && Reaches(s, t, past) && t.Up? && i < |t.ring| && t.ring[i].finish.Some?
    requires t.ring[i].ring in past.entries && t.ring[i].ring in past.history
    requires 0 < x <= past.entries[t.ring[i].ring].highest
    ensures
      var e, h, f := past.entries[t.ring[i].ring], past.history[t.ring[i].ring], t.ring[i].finish.value;
      && x <= |h| && 0 <= e.aru
      && (Delivery(x, h[x - 1]) in W.Ordered(f.before) <==> BeforeTheSignal(e, h, x))
      && (Delivery(x, h[x - 1]) in W.Ordered(f.all) <==> EverHandedUp(e, h, x))
  {
    hide Ready, EvsInv, HandedUpKept, DiscardEvs;
    ReadyMembers(s, past);
    var path :| Path(path, s, t, past);
    PathKeepsMembers(path, s, t, past);
    var d := t.ring[i];
    assert MemberOk(d, past);
    var e, h := past.entries[d.ring], past.history[d.ring];
    HoleNumbers(d.r, e, h);
    FinishCanonical(d.r, e, Commit(past, d.ring), h);
    FinishedMeans(e, h, Commit(past, d.ring), x);
  }

  lemma HoleNumbers(r: Recovering, e: RingInfo, h: seq<Packet>)
    requires EvsInv(r, e, h)
    ensures r.holes == HoleSet(e) && forall y :: y in e.holes ==> e.aru < y
  {
    assert forall y :: y in e.holes ==> y in HoleSet(e);
  }

  /** The canonical delivery, packet by packet. */
  lemma FinishedMeans(e: RingInfo, h: seq<Packet>, commit: set<int>, x: int)
    requires 0 <= e.aru <= e.highest <= |h| && 0 < x <= e.highest && forall y :: y in e.holes ==> e.aru < y
    requires forall y :: y in commit <==> y in e.commit
    ensures
      var c := Cut(h, HoleSet(e), e.aru + 1, e.highest);
      var before := W.OrderedPrefix(h, c - 1);
      && (Delivery(x, h[x - 1]) in before <==> BeforeTheSignal(e, h, x))
      && (Delivery(x, h[x - 1]) in before + Rest(h, HoleSet(e), commit, c, e.highest, false) <==> EverHandedUp(e, h, x))
  {
    var holes := HoleSet(e);
    var c := Cut(h, holes, e.aru + 1, e.highest);
    PrefixMeans(h, c - 1, x);
    RestMeans(h, holes, commit, c, e.highest, false, x);
    NoHoleBefore(h, holes, e.aru + 1, e.highest, c);
    if e.aru < x {
      CutMeans(h, holes, e.aru + 1, e.highest, x);
    }
    hide *;
    AllMeans(e, h, commit, c, x);
    var before, rest := W.OrderedPrefix(h, c - 1), Rest(h, holes, commit, c, e.highest, false);
    assert Delivery(x, h[x - 1]) in before + rest <==> Delivery(x, h[x - 1]) in before || Delivery(x, h[x - 1]) in rest;
  }

  /** Up to the cut everything, behind it what the holes leave. */
  lemma AllMeans(e: RingInfo, h: seq<Packet>, commit: set<int>, c: int, x: int)
    requires 0 <= e.aru < c && 0 < x <= e.highest <= |h| && forall y :: y in e.holes ==> e.aru < y
    requires forall y :: e.aru + 1 <= y < c ==> y !in HoleSet(e)
    requires forall y :: y in commit <==> y in e.commit
    ensures EverHandedUp(e, h, x)
      <==> || (x <= c - 1 && !Early(h[x - 1]))
           || (&& c <= x <= e.highest && x !in HoleSet(e) && !Early(h[x - 1])
               && (h[x - 1].sender in commit || NoHoleIn(HoleSet(e), c, x)))
  {
    assert forall y :: y in HoleSet(e) <==> y in e.holes;
    hide Early;
    if x < c {
      assert x !in HoleSet(e);
    }
  }

  lemma NoHoleBefore(h: seq<Packet>, holes: set<int>, q: int, last: int, c: int)
    requires 0 < q <= last + 1 && last <= |h| && c == Cut(h, holes, q, last)
    ensures forall y :: q <= y < c ==> y !in holes
  {
    if q < c {
      CutMeans(h, holes, q, last, c - 1);
      forall y | q <= y < c
        ensures y !in holes
      {
        assert Plain(h, holes, y);
      }
    }
  }

  // ----- what a visit asks for

  /** It holds what it held, and has committed if and only if nothing up to Highest_seq is missing. It
      asks for exactly what is missing of the next `room` numbers after My_aru; what is asked for of
      other rings stays. */
  ghost predicate VisitedExactly(d: Survivor, t: EvsToken, room: nat, e: Survivor, t': EvsToken) {
    && e.id == d.id && e.ring == d.ring && e.r.win.slots == d.r.win.slots && e.r.holes == d.r.holes
    && e.r.win.highest == d.r.win.highest
    && (e.r.committed <==> d.r.committed || forall q :: d.r.win.myAru < q <= d.r.win.highest ==> Exists(d.r, q))
    && (e.r.committed ==> e.r.win.myAru == e.r.lastSeq && Requested(t', d.ring) == [])
    && (!e.r.committed ==>
          && (forall q :: d.r.win.myAru < q <= e.r.win.myAru ==> Exists(d.r, q)) && !Exists(d.r, e.r.win.myAru + 1)
          && forall q :: q in Requested(t', d.ring)
               <==> e.r.win.myAru < q <= e.r.win.highest && q <= e.r.win.myAru + room && !Exists(d.r, q))
    && forall ring :: ring != d.ring ==> Requested(t', ring) == Requested(t, ring)
  }

  lemma {:induction false} AdvanceOverAll(r: Recovering, my: int)
    requires my <= r.win.highest
    ensures var n := AdvanceOver(r, my);
            && my <= n <= r.win.highest && (forall q :: my < q <= n ==> Exists(r, q))
            && (n < r.win.highest ==> !Exists(r, n + 1))
    decreases r.win.highest - my
  {
    if my < r.win.highest && Exists(r, my + 1) {
      AdvanceOverAll(r, my + 1);
    }
  }

  lemma WantedNone(r: Recovering, from: int, last: int)
    requires last < from
    ensures Wanted(r, from, last) == []
  {
  }

  lemma VisitMoves(r: Recovering, aru: int)
    requires r.win.highest < r.lastSeq && if r.committed then r.win.myAru == r.lastSeq else r.win.myAru <= r.win.highest
    ensures
      var v, my := Visit(r, aru), AdvanceOver(r, r.win.myAru);
      && v.win.slots == r.win.slots && v.holes == r.holes && v.win.highest == r.win.highest && v.lastSeq == r.lastSeq
      && (v.committed <==> r.committed || forall q :: r.win.myAru < q <= r.win.highest ==> Exists(r, q))
      && (v.committed ==> v.win.myAru == v.lastSeq && r.win.highest <= my)
      && (!v.committed ==> v.win.myAru == my && (forall q :: r.win.myAru < q <= my ==> Exists(r, q)) && !Exists(r, my + 1))
  {
    if r.committed {
      CommittedStaysPut(r);
    } else {
      AdvanceOverAll(r, r.win.myAru);
    }
    hide AdvanceOver, Exists;
  }

  lemma VisitExactly(d: Survivor, past: Past, t: EvsToken, room: nat)
    requires MemberOk(d, past) && d.finish.None? && AllFrom(Requested(t, d.ring), d.r.win.aru) && 0 <= t.aru
    ensures VisitToken(d, t, room, Commit(past, d.ring)).Go?
    ensures
      var v := VisitToken(d, t, room, Commit(past, d.ring)).value;
      VisitedExactly(d, t, room, v.daemon, v.token)
  {
    EvsNumbers(d.r, past.entries[d.ring], past.history[d.ring]);
    VisitGoes(d, past, t, room);
    var v := VisitToken(d, t, room, Commit(past, d.ring)).value;
    var aru := A.Min(Stamped(d, t).aru, d.prev);
    assert v.daemon == d.(r := Visit(d.r, aru), mark := v.daemon.mark, prev := v.daemon.prev, finish := v.daemon.finish);
    hide VisitToken, VisitedAs, AdvanceOver, Visit, Wanted, Stamped, MemberOk, AllFrom;
    VisitMoves(d.r, aru);
    VisitAsks(d, t, room, v);
  }

  lemma VisitAsks(d: Survivor, t: EvsToken, room: nat, v: Visited)
    requires
      var my := AdvanceOver(d.r, d.r.win.myAru);
      && v.token.rtr == t.rtr[d.ring := Wanted(d.r, my + 1, A.Min(d.r.win.highest, my + room))]
      && (v.daemon.r.committed ==> d.r.win.highest <= my) && (!v.daemon.r.committed ==> v.daemon.r.win.myAru == my)
      && v.daemon.r.win.highest == d.r.win.highest
    ensures v.daemon.r.committed ==> Requested(v.token, d.ring) == []
    ensures !v.daemon.r.committed ==>
              forall q :: q in Requested(v.token, d.ring) <==>
                v.daemon.r.win.myAru < q <= v.daemon.r.win.highest && q <= v.daemon.r.win.myAru + room && !Exists(d.r, q)
    ensures forall ring :: ring != d.ring ==> Requested(v.token, ring) == Requested(t, ring)
  {
    var my := AdvanceOver(d.r, d.r.win.myAru);
    var last := A.Min(d.r.win.highest, my + room);
    var wanted := Wanted(d.r, my + 1, last);
    if d.r.win.highest <= my {
      WantedNone(d.r, my + 1, last);
    }
    hide Wanted, AdvanceOver, Exists;
    forall q
      ensures q in wanted <==> my < q <= d.r.win.highest && q <= my + room && !Exists(d.r, q)
    {
      WantedExact(d.r, my + 1, last, q);
    }
  }

  lemma CommittedStaysPut(r: Recovering)
    requires r.win.highest < r.win.myAru
    ensures AdvanceOver(r, r.win.myAru) == r.win.myAru
  {
  }

  /** On every run: the holder changes and asks as VisitedExactly says, whatever the state of the
      others. */
  lemma TokensVisit(s: Sys, t: Sys, past: Past, room: nat, hurried: bool)
    requires Ready(s, past) && Reaches(s, t, past) && Enabled(t, PassToken(room, hurried), past)
    ensures
      var u, n := Apply(t, PassToken(room, hurried), past), |t.ring|;
      u.Up? ==> |u.ring| == n
                && (forall i :: 0 <= i < n - 1 ==> u.ring[i] == t.ring[i + 1])
                && VisitedExactly(t.ring[0], if hurried then EvsToken(t.token.aru, t.token.lastId, map[]) else t.token, room,
                                  u.ring[n - 1], u.token)
  {
    ReadyMembers(s, past);
    var path :| Path(path, s, t, past);
    PathKeepsMembers(path, s, t, past);
    var d, token := t.ring[0], Copy(t.token, hurried);
    assert MemberOk(d, past);
    hide MemberOk, Ready, Answerable;
    if VisitToken(d, token, room, Commit(past, d.ring)).Go? {
      AnsweredMeans(d, token, room, past);
      VisitExactly(d, past, token, room);
    }
    hide VisitToken, VisitedExactly;
  }

  // ----- what an arriving packet changes

  /** Packet q has arrived: one that is not above Aru, is there already or is a hole changes nothing;
      any other is now held, not handed up, and nothing else has changed, except that if it is the
      first one missing My_aru has moved to the last number before the next that is missing. */
  ghost predicate ArrivedExactly(r: Recovering, q: int, p: Packet, r': Recovering) {
    if q <= r.win.aru || Exists(r, q) then r' == r
    else
      var my, w := r'.win.myAru, r.win;
      && r' == r.(win := w.(slots := w.slots[q := Slot(p, false)], highest := Max(w.highest, q), myAru := my))
      && if q != w.myAru + 1 then my == w.myAru
         else q <= my <= r'.win.highest && (forall x :: q < x <= my ==> Exists(r, x)) && !Exists(r, my + 1)
  }

  lemma ReceiveExactly(r: Recovering, q: int, p: Packet)
    requires forall x :: Exists(r, x) ==> x <= r.win.highest
    ensures ArrivedExactly(r, q, p, Receive(r, q, p))
  {
    if q > r.win.aru && !Exists(r, q) && q == r.win.myAru + 1 {
      var r1 := r.(win := r.win.(slots := r.win.slots[q := Slot(p, false)], highest := Max(r.win.highest, q)));
      AdvanceOverAll(r1, r.win.myAru);
      assert Exists(r1, q);
      assert forall x :: x != q ==> Exists(r1, x) == Exists(r, x);
    }
  }

  /** On every run: an arriving packet changes the daemon it comes to in this way, and nobody else. */
  lemma PacketsArrive(s: Sys, t: Sys, past: Past, i: nat, q: int)
    requires Ready(s, past) && Reaches(s, t, past) && Enabled(t, Arrive(i, q), past)
    ensures
      var u, d := Apply(t, Arrive(i, q), past), t.ring[i];
      && u.Up? && u.token == t.token && |u.ring| == |t.ring|
      && (forall k :: 0 <= k < |t.ring| && k != i ==> u.ring[k] == t.ring[k])
      && ArrivedExactly(d.r, q, past.history[d.ring][q - 1], u.ring[i].r)
      && u.ring[i] == d.(r := u.ring[i].r)
  {
    ReadyMembers(s, past);
    var path :| Path(path, s, t, past);
    PathKeepsMembers(path, s, t, past);
    var d := t.ring[i];
    assert MemberOk(d, past);
    NothingAbove(d, past);
    hide MemberOk, Ready, ArrivedExactly, Receive;
    ReceiveExactly(d.r, q, past.history[d.ring][q - 1]);
  }

  lemma NothingAbove(d: Survivor, past: Past)
    requires MemberOk(d, past) && d.finish.None?
    ensures forall x :: Exists(d.r, x) ==> x <= d.r.win.highest
  {
  }
}

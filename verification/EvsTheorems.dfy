/** What recovery means for the ring as a whole: from any state of a run to the last delivery in
    the old membership, and what one late packet can do to it. */
module EvsTheorems {
  import opened Outcomes
  import opened Protocol
  import opened FormToken
  import opened Evs
  import R = Ring
  import T = RingTheorems
  import W = WindowInvariant

  // ----- from a run of the ring to the form token

  /** Some members of the ring, each once. */
  ghost predicate Chosen(s: R.Sys, chosen: seq<nat>, commits: seq<seq<int>>) {
    && s.Up? && |commits| == |chosen| > 0
    && (forall k :: 0 <= k < |chosen| ==> chosen[k] < |s.ring| && Distinct(commits[k]))
    && (forall j, k :: 0 <= j < k < |chosen| ==> chosen[j] != chosen[k])
  }

  /** What the form token finds when it visits them. */
  function Visited(s: R.Sys, chosen: seq<nat>, commits: seq<seq<int>>): (ps: seq<Participant>)
    requires Chosen(s, chosen, commits)
    ensures |ps| == |chosen|
  {
    seq(|chosen|, k requires 0 <= k < |chosen| =>
      Participant(s.ring[chosen[k]].daemon.id, s.ring[chosen[k]].daemon.win, commits[k]))
  }

  lemma DistinctMembers(s: R.Sys, i: nat, j: nat)
    requires R.Inv(s) && i < |s.ring| && j < |s.ring| && i != j
    ensures s.ring[i].daemon.id != s.ring[j].daemon.id
  {
    hide W.Inv, R.ArqOk, R.Fits, R.RequestsOk, R.FlowSum, R.A.Ordinary, R.A.Small, R.A.Fresh, R.A.Covered, R.A.Stable;
    var c := R.ToCore(s);
    assert R.A.DistinctIds(c.ring);
    assert c.ring[i].id == s.ring[i].daemon.id && c.ring[j].id == s.ring[j].daemon.id;
  }

  lemma MemberInv(s: R.Sys, i: nat)
    requires R.Inv(s) && i < |s.ring|
    ensures W.Inv(s.ring[i].daemon.win, s.history)
  {
    hide W.Inv, R.A.Inv, R.ArqOk, R.Fits, R.RequestsOk, R.FlowSum;
    assert R.MemberOk(s.ring[i], s.history);
  }

  lemma RunIsOldRing(s: R.Sys, chosen: seq<nat>, commits: seq<seq<int>>)
    requires R.Inv(s) && Chosen(s, chosen, commits)
    ensures OldRing(Visited(s, chosen, commits), s.history)
  {
    hide W.Inv, R.Inv;
    T.InvStable(s);
    var ps := Visited(s, chosen, commits);
    forall k | 0 <= k < |ps| ensures W.Inv(ps[k].win, s.history) {
      MemberInv(s, chosen[k]);
    }
    forall j, k | 0 <= j < k < |ps| ensures ps[j].id != ps[k].id {
      DistinctMembers(s, chosen[j], chosen[k]);
    }
  }

  /** Whichever members of the ring the form token visits, at whatever moment of the run, their
      ring's entry ends up exact. */
  lemma RunsFormExactly(trace: seq<R.Sys>, l: R.Limits, i: nat, chosen: seq<nat>, commits: seq<seq<int>>)
    requires R.Run(trace, l) && R.LimitsOk(l) && R.HarmlessStart(trace[0]) && i < |trace|
    requires Chosen(trace[i], chosen, commits)
    ensures
      var ps := Visited(trace[i], chosen, commits);
      && Entry(ps).Go?
      && HolesExact(ps, Entry(ps).value) && Maxima(ps, Entry(ps).value) && CommitExact(ps, Entry(ps).value)
  {
    var ps := Visited(trace[i], chosen, commits);
    hide *;
    R.RunKeepsInv(trace, l, i);
    RunIsOldRing(trace[i], chosen, commits);
    EntryExact(ps, trace[i].history);
  }

  // ----- and on to the end of recovery

  /** The buffer of a visited daemon when it reads the entry: it may have received more of the
      packets up to the entry's highest number, but none of the holes. */
  ghost predicate Between(first: Window, w: Window, e: RingInfo, h: seq<Packet>) {
    && W.Inv(w, h) && W.Grown(first, w) && w.highest <= e.highest
    && forall q :: q in e.holes ==> q !in w.slots
  }

  lemma HoleAboveAru(ps: seq<Participant>, h: seq<Packet>, e: RingInfo, q: int)
    requires |ps| > 0 && OldRing(ps, h) && HolesExact(ps, e) && Maxima(ps, e) && q in e.holes
    ensures e.aru < q <= e.highest
  {
    hide W.Inv;
    var i :| 0 <= i < |ps| && ps[i].win.aru == e.aru;
    assert !SomeoneHas(ps, q);
    Discarded(ps[i].win, h);
  }

  lemma Discarded(w: Window, h: seq<Packet>)
    requires W.Inv(w, h)
    ensures w.lastDiscarded == w.aru && 0 <= w.aru <= w.myAru <= w.highest <= |h|
  {
  }

  lemma BetweenIsReadable(ps: seq<Participant>, h: seq<Packet>, e: RingInfo, a: nat, w: Window)
    requires |ps| > 0 && OldRing(ps, h) && HolesExact(ps, e) && Maxima(ps, e)
    requires a < |ps| && Between(ps[a].win, w, e, h)
    ensures Readable(w, e, h)
  {
    hide W.Inv;
    var i :| 0 <= i < |ps| && ps[i].win.aru == e.aru;
    var j :| 0 <= j < |ps| && ps[j].win.highest == e.highest;
    Discarded(ps[j].win, h);
    Discarded(w, h);
    assert ps[i].win.aru <= ps[a].win.myAru;
    forall q | q in e.holes
      ensures e.aru < q <= e.highest
    {
      HoleAboveAru(ps, h, e, q);
    }
  }

  function CommitSet(e: RingInfo): set<int> {
    set x | x in e.commit
  }

  /** Two finished recoveries agree on everything ordered and on the place of the signal. */
  ghost predicate SameFinish(r: Recovering, r': Recovering, commit: set<int>) {
    DiscardEvs(r, commit).Go? && DiscardEvs(r', commit).Go? ==>
      var f, f' := DiscardEvs(r, commit).value, DiscardEvs(r', commit).value;
      W.Ordered(f.before) == W.Ordered(f'.before) && W.Ordered(f.all) == W.Ordered(f'.all)
  }

  /** Virtual synchrony for a whole run: take any moment, let the form token visit any members of
      the ring, let any two of them read the resulting entry, receive any of the packets it covers
      and be visited by any tokens: neither finds a packet where a hole should be, a daemon that
      commits finds everything in the final delivery, and the two that finish agree. Whether a
      visit is answered with an exit is a matter of the whole new ring (EvsTrouble). */
  lemma RunsAreVirtuallySynchronous(trace: seq<R.Sys>, l: R.Limits, i: nat,
                                    chosen: seq<nat>, commits: seq<seq<int>>, lastSeq: int,
                                    a: nat, w: Window, steps: seq<Step>, b: nat, w': Window, steps': seq<Step>)
    requires R.Run(trace, l) && R.LimitsOk(l) && R.HarmlessStart(trace[0]) && i < |trace|
    requires Chosen(trace[i], chosen, commits) && a < |chosen| && b < |chosen| && |trace[i].history| < lastSeq
    requires
      var ps := Visited(trace[i], chosen, commits);
      Entry(ps).Go? ==>
        && Between(ps[a].win, w, Entry(ps).value, trace[i].history)
        && Between(ps[b].win, w', Entry(ps).value, trace[i].history)
        && NothingLate(steps, Entry(ps).value) && NothingLate(steps', Entry(ps).value)
    requires StepsOk(steps, trace[i].history) && StepsOk(steps', trace[i].history)
    ensures
      var ps, h := Visited(trace[i], chosen, commits), trace[i].history;
      && Entry(ps).Go?
      && var e := Entry(ps).value;
         && Recover(w, e, lastSeq, h, steps).Go? && Recover(w', e, lastSeq, h, steps').Go?
         && var r, r', commit := Recover(w, e, lastSeq, h, steps).value, Recover(w', e, lastSeq, h, steps').value, CommitSet(e);
            && (r.committed ==> DiscardEvs(r, commit).Go?)
            && SameFinish(r, r', commit)
  {
    var ps, h := Visited(trace[i], chosen, commits), trace[i].history;
    RunsFormExactly(trace, l, i, chosen, commits);
    R.RunKeepsInv(trace, l, i);
    RunIsOldRing(trace[i], chosen, commits);
    var e := Entry(ps).value;
    var commit := CommitSet(e);
    BetweenIsReadable(ps, h, e, a, w);
    BetweenIsReadable(ps, h, e, b, w');
    hide *;
    assert forall q :: q in e.holes ==> q !in w.slots && q !in w'.slots by { BetweenNoHoles(ps[a].win, w, ps[b].win, w', e, h); }
    VirtualSynchrony(w, w', e, lastSeq, h, steps, steps', commit);
    CommittedFinishes(w, e, lastSeq, h, steps, commit);
    SameFinishMeans(Recover(w, e, lastSeq, h, steps).value, Recover(w', e, lastSeq, h, steps').value, commit);
  }

  lemma BetweenNoHoles(first: Window, w: Window, first': Window, w': Window, e: RingInfo, h: seq<Packet>)
    requires Between(first, w, e, h) && Between(first', w', e, h)
    ensures forall q :: q in e.holes ==> q !in w.slots && q !in w'.slots
  {
  }

  lemma SameFinishMeans(r: Recovering, r': Recovering, commit: set<int>)
    requires
      DiscardEvs(r, commit).Go? && DiscardEvs(r', commit).Go? ==>
        var f, f' := DiscardEvs(r, commit).value, DiscardEvs(r', commit).value;
        W.Ordered(f.before) == W.Ordered(f'.before) && W.Ordered(f.all) == W.Ordered(f'.all)
    ensures SameFinish(r, r', commit)
  {
  }

  // ----- SAFE messages and the signal

  lemma {:induction false} InOrdered(log: seq<Delivery>, d: Delivery)
    requires d in log && !Early(d.packet)
    ensures d in W.Ordered(log)
  {
    var n := |log| - 1;
    if d == log[n] {
      assert d in W.Ordered(log);
    } else {
      assert log == log[..n] + [log[n]];
      InOrdered(log[..n], d);
    }
  }

  lemma {:induction false} InPrefix(h: seq<Packet>, n: nat, d: Delivery)
    requires n <= |h| && d in W.OrderedPrefix(h, n)
    ensures 0 < d.num <= n && d.packet == h[d.num - 1]
  {
    if n > 0 && d in W.OrderedPrefix(h, n - 1) {
      InPrefix(h, n - 1, d);
    }
  }

  lemma {:induction false} NoSafeBeforeCut(h: seq<Packet>, holes: set<int>, q: int, last: int, k: int)
    requires 0 < q <= last + 1 && last <= |h| && q <= k < Cut(h, holes, q, last)
    ensures k <= last && !h[k - 1].service.Safe?
    decreases last - q
  {
    if k != q {
      NoSafeBeforeCut(h, holes, q + 1, last, k);
    }
  }

  /** What is handed up as SAFE before the signal is at most the ring's aru: every member of the
      old ring, come through or not, has it. */
  lemma SafeBeforeSignal(r: Recovering, e: RingInfo, commit: set<int>, h: seq<Packet>, d: Delivery)
    requires EvsInv(r, e, h) && DiscardEvs(r, commit).Go?
    requires d in DiscardEvs(r, commit).value.before && d.packet.service.Safe?
    ensures 0 < d.num <= e.aru
  {
    hide EvsInv, DiscardEvs, W.Ordered, W.OrderedPrefix, Rest, Cut;
    FinishCanonical(r, e, commit, h);
    InOrdered(DiscardEvs(r, commit).value.before, d);
    var c := Cut(h, r.holes, e.aru + 1, r.win.highest);
    InPrefix(h, c - 1, d);
    if d.num > e.aru {
      NoSafeBeforeCut(h, r.holes, e.aru + 1, r.win.highest, d.num);
    }
  }

  /** So SAFE keeps its meaning across the membership change. */
  lemma SafeAcrossRecovery(s: R.Sys, chosen: seq<nat>, commits: seq<seq<int>>, r: Recovering, commit: set<int>,
                           d: Delivery, j: nat)
    requires R.Inv(s) && Chosen(s, chosen, commits) && j < |s.ring|
    requires var ps := Visited(s, chosen, commits);
             FormToken.Entry(ps).Go? && EvsInv(r, FormToken.Entry(ps).value, s.history)
    requires DiscardEvs(r, commit).Go? && d in DiscardEvs(r, commit).value.before && d.packet.service.Safe?
    ensures T.Has(s.ring[j].daemon.win, d.num)
  {
    var ps := Visited(s, chosen, commits);
    RunIsOldRing(s, chosen, commits);
    hide EvsInv, DiscardEvs, W.Inv, R.Inv, T.Has;
    EntryExact(ps, s.history);
    var e := FormToken.Entry(ps).value;
    SafeBeforeSignal(r, e, commit, s.history, d);
    var i :| 0 <= i < |ps| && ps[i].win.aru == e.aru;
    T.InvStable(s);
    assert s.ring[chosen[i]].daemon.win.aru == e.aru;
  }
}

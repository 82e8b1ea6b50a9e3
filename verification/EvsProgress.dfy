/** Recovery comes to an end: from every state of a sound run in which nobody misses anything, and
    nobody has installed the new membership yet, at most three rotations of the token bring all
    members to install it. */
module EvsProgress {
  import opened Outcomes
  import opened Protocol
  import opened FormToken
  import opened Evs
  import opened EvsRing
  import opened EvsTrouble
  import A = AruCore
  import K = EvsCore

  // ----- two more things that sound runs keep

  /** Whoever has lowered the token's aru is still there to raise it again. */
  ghost predicate WriterThere(s: Sys, last: int) {
    s.Up? && (s.token.aru < last ==> exists j :: 0 <= j < |s.ring| && s.ring[j].id == s.token.lastId)
  }

  /** Members from place k on have forwarded an aru at its top, those before it have not. */
  ghost predicate SplitAt(s: Sys, last: int, k: int) {
    && s.Up? && 0 <= k <= |s.ring|
    && (forall i :: 0 <= i < k ==> s.ring[i].prev < last)
    && (forall i :: k <= i < |s.ring| ==> s.ring[i].prev == last)
  }

  ghost predicate Lined(s: Sys, last: int) {
    s.Up? && (s.token.aru == last ==> exists k :: SplitAt(s, last, k))
  }

  ghost predicate Steady(s: Sys, past: Past) {
    Inv(s, past) && WriterThere(s, past.lastSeq) && Lined(s, past.lastSeq)
  }

  lemma ReadySteady(s: Sys, past: Past)
    requires Ready(s, past) && Sound(s)
    ensures Steady(s, past)
  {
    ReadyInv(s, past);
    assert forall i :: 0 <= i < |s.ring| ==> ReadyMember(s.ring[i], past);
    assert SplitAt(s, past.lastSeq, |s.ring|);
    hide Inv, ReadyMember;
  }

  /** Before the aru is raised to the top, nobody has forwarded it like that. */
  lemma NobodyAtTop(c: K.Core, last: int)
    requires K.Inv(c, last) && K.MayReset(c) && c.aru < last
    ensures forall i :: 0 <= i < |c.ring| ==> c.ring[i].cell.prev < last
  {
    assert K.Settled(c, last);
    assert K.MarkOk(c, last, 0) && K.WriterOk(c, 0);
    hide A.Safe, K.Below;
  }

  lemma NobodyForwarded(s: Sys, past: Past)
    requires Inv(s, past) && |s.ring| > 1 && s.token.aru < past.lastSeq
    requires s.token.aru == s.ring[0].mark || s.token.lastId == s.ring[0].id || s.token.aru == 0
    ensures forall i :: 0 <= i < |s.ring| ==> s.ring[i].prev < past.lastSeq
  {
    var c := ToCore(s);
    assert c.ring[0] == ToMember(s.ring[0]);
    hide K.Inv, MemberOk, RequestsOk, Stops;
    NobodyAtTop(c, past.lastSeq);
    forall i | 0 <= i < |s.ring|
      ensures s.ring[i].prev < past.lastSeq
    {
      assert c.ring[i] == ToMember(s.ring[i]);
    }
  }

  /** The others shift forward; what the holder has written. */
  ghost predicate Passed(s: Sys, s': Sys, level: int) {
    && s.Up? && s'.Up? && 0 < |s.ring| == |s'.ring|
    && (forall i :: 0 <= i < |s.ring| - 1 ==> s'.ring[i] == s.ring[i + 1])
    && var d, e := s.ring[0], s'.ring[|s.ring| - 1];
       && e.id == d.id && e.ring == d.ring && e.prev == s'.token.aru
       && if s.token.aru == d.mark || s.token.lastId == d.id || s.token.aru == 0 || s.token.aru > level then
            s'.token.aru == level && s'.token.lastId == d.id
          else s'.token.aru == s.token.aru && s'.token.lastId == s.token.lastId
  }

  lemma PassedNow(s: Sys, past: Past, room: nat, hurried: bool)
    requires Inv(s, past) && Enabled(s, PassToken(room, hurried), past)
    ensures Passed(s, Apply(s, PassToken(room, hurried), past), Level(s.ring[0].r))
  {
    var d, t := s.ring[0], Copy(s.token, hurried);
    assert MemberOk(d, past) && AllFrom(Requested(t, d.ring), d.r.win.aru);
    VisitGoes(d, past, t, room);
    StampHere(d, past, t);
    StampFacts(d, t, past.lastSeq);
    VisitedId(d, t, VisitToken(d, t, room, Commit(past, d.ring)).value);
    hide VisitToken, MemberOk, K.Inv, Level, Visit, Stamped, RequestsOk, Answerable;
  }

  lemma WriterStays(s: Sys, s': Sys, level: int, last: int)
    requires Passed(s, s', level) && WriterThere(s, last)
    ensures WriterThere(s', last)
  {
    var n := |s.ring|;
    if s'.token.lastId == s.ring[0].id {
      assert s'.ring[n - 1].id == s'.token.lastId;
    } else if s.token.aru < last {
      var j :| 0 <= j < n && s.ring[j].id == s.token.lastId;
      assert j > 0 && s'.ring[j - 1] == s.ring[j];
    }
  }

  /** Once at the top, the aru is lined up behind whoever has brought it there. */
  lemma LineMoves(s: Sys, s': Sys, level: int, last: int, k: int)
    requires Passed(s, s', level) && level <= last && s.token.aru <= last && s'.token.aru == last && SplitAt(s, last, k)
    ensures SplitAt(s', last, if k == 0 then 0 else k - 1)
  {
    var n := |s.ring|;
    forall i | 0 <= i < n
      ensures i < k - 1 ==> s'.ring[i].prev < last
      ensures k - 1 <= i ==> s'.ring[i].prev == last
    {
      assert i < n - 1 ==> s'.ring[i] == s.ring[i + 1];
    }
  }

  lemma LineStarts(s: Sys, s': Sys, level: int, last: int)
    requires Passed(s, s', level) && s'.token.aru == last && forall i :: 0 < i < |s.ring| ==> s.ring[i].prev < last
    ensures SplitAt(s', last, |s.ring| - 1)
  {
    var n := |s.ring|;
    forall i | 0 <= i < n - 1
      ensures s'.ring[i].prev < last
    {
      assert s'.ring[i] == s.ring[i + 1];
    }
  }

  lemma AruAtMostLast(s: Sys, past: Past)
    requires Inv(s, past) && |s.ring| > 1
    ensures s.token.aru <= past.lastSeq
  {
    hide MemberOk, RequestsOk, Stops, K.Settled, K.Fresh, K.Sound, A.Safe;
  }

  lemma PrevAtMostLast(s: Sys, past: Past)
    requires Inv(s, past)
    ensures forall i :: 0 <= i < |s.ring| ==> s.ring[i].prev <= past.lastSeq
    ensures forall i :: 0 <= i < |s.ring| ==> 0 <= Level(s.ring[i].r) <= past.lastSeq
  {
    hide K.Inv, RequestsOk;
    forall i | 0 <= i < |s.ring|
      ensures s.ring[i].prev <= past.lastSeq && 0 <= Level(s.ring[i].r) <= past.lastSeq
    {
      assert MemberOk(s.ring[i], past);
      LowIsUncommitted(s.ring[i], past);
    }
  }

  lemma OneIsLined(s: Sys, past: Past)
    requires Inv(s, past) && |s.ring| == 1
    ensures Lined(s, past.lastSeq)
  {
    PrevAtMostLast(s, past);
    assert SplitAt(s, past.lastSeq, if s.ring[0].prev < past.lastSeq then 1 else 0);
    hide Inv;
  }

  lemma PassKeepsLined(s: Sys, s': Sys, past: Past)
    requires Inv(s, past) && Lined(s, past.lastSeq) && Inv(s', past) && |s.ring| > 1
    requires Passed(s, s', Level(s.ring[0].r))
    ensures Lined(s', past.lastSeq)
  {
    var last := past.lastSeq;
    AruAtMostLast(s, past);
    PrevAtMostLast(s, past);
    hide Inv, Level;
    if s'.token.aru == last {
      if s.token.aru == last {
        var k :| SplitAt(s, last, k);
        LineMoves(s, s', Level(s.ring[0].r), last, k);
      } else {
        NobodyForwarded(s, past);
        LineStarts(s, s', Level(s.ring[0].r), last);
      }
    }
  }

  lemma PassKeepsSteady(s: Sys, past: Past, room: nat, hurried: bool)
    requires Steady(s, past) && Enabled(s, PassToken(room, hurried), past)
    ensures Steady(Apply(s, PassToken(room, hurried), past), past)
  {
    SizeOf(s, past);
    var s' := Apply(s, PassToken(room, hurried), past);
    hide Inv, Apply, Lined, WriterThere, Level;
    PassKeepsInv(s, past, room, hurried);
    SizeOf(s', past);
    PassedNow(s, past, room, hurried);
    WriterStays(s, s', Level(s.ring[0].r), past.lastSeq);
    if |s.ring| > 1 {
      PassKeepsLined(s, s', past);
    } else {
      OneIsLined(s', past);
    }
  }

  lemma ArriveKeepsSteady(s: Sys, past: Past, i: nat, q: int)
    requires Steady(s, past) && Enabled(s, Arrive(i, q), past)
    ensures Steady(Apply(s, Arrive(i, q), past), past)
  {
    ArriveKeepsInv(s, past, i, q);
    hide Inv, Receive, Lined, WriterThere;
    ArrivalSteady(s, Apply(s, Arrive(i, q), past), past.lastSeq);
  }

  lemma NextKeepsSteady(s: Sys, s': Sys, past: Past)
    requires Steady(s, past) && Next(s, s', past)
    ensures Steady(s', past)
  {
    hide Steady, Enabled, Apply;
    var step :| Enabled(s, step, past) && s' == Apply(s, step, past);
    match step
    case PassToken(room, hurried) => PassKeepsSteady(s, past, room, hurried);
    case Arrive(i, q) => ArriveKeepsSteady(s, past, i, q);
  }

  lemma SizeOf(s: Sys, past: Past)
    requires Inv(s, past)
    ensures s.Up? && |s.ring| > 0
  {
  }

  lemma ArrivalSteady(s: Sys, s': Sys, last: int)
    requires WriterThere(s, last) && Lined(s, last) && s'.Up? && s'.token == s.token && |s'.ring| == |s.ring|
    requires forall i :: 0 <= i < |s.ring| ==> s'.ring[i].id == s.ring[i].id && s'.ring[i].prev == s.ring[i].prev
    ensures WriterThere(s', last) && Lined(s', last)
  {
    if s.token.aru < last {
      var j :| 0 <= j < |s.ring| && s.ring[j].id == s.token.lastId;
      assert s'.ring[j].id == s'.token.lastId;
    }
    if s.token.aru == last {
      var k :| SplitAt(s, last, k);
      assert SplitAt(s', last, k);
    }
  }

  lemma {:induction false} PathKeepsSteady(path: seq<Sys>, s: Sys, t: Sys, past: Past)
    requires Path(path, s, t, past) && Steady(s, past)
    ensures Steady(t, past)
    decreases |path|
  {
    hide Steady, Next;
    if |path| > 1 {
      var n := |path| - 1;
      PathKeepsSteady(path[..n], s, path[n - 1], past);
      NextKeepsSteady(path[n - 1], t, past);
    }
  }

  // ----- nobody misses anything

  /** The last f of the ring have installed the new membership, the others have not. */
  ghost predicate Installed(s: Sys, f: int) {
    && s.Up? && 0 <= f <= |s.ring|
    && forall i :: 0 <= i < |s.ring| ==> (s.ring[i].finish.Some? <==> |s.ring| - f <= i)
  }

  ghost predicate AllHave(s: Sys, last: int) {
    s.Up? && forall i :: 0 <= i < |s.ring| ==> Level(s.ring[i].r) == last
  }

  /** m visits are enough for everybody to install it. */
  ghost predicate Enough(s: Sys, last: int, m: int) {
    s.Up? &&
    var n := |s.ring|;
    || (s.token.aru < last && Installed(s, 0) && exists j :: 0 <= j < n && s.ring[j].id == s.token.lastId && 2 * n + 1 + j <= m)
    || (s.token.aru >= last && Installed(s, 0) && exists k :: SplitAt(s, last, k) && n + k <= m)
    || (s.token.aru == last && SplitAt(s, last, 0) && exists f :: Installed(s, f) && n - f <= m)
  }

  lemma LevelKept(d: Survivor, past: Past, aru: int)
    requires MemberOk(d, past)
    ensures Level(Visit(d.r, aru)) == Level(d.r)
  {
    LevelStays(d.r, past.entries[d.ring], past.history[d.ring], aru);
  }

  /** The visit with no requests on the token. */
  lemma HurriedVisit(s: Sys, past: Past) returns (s': Sys)
    requires Inv(s, past) && s.ring[0].finish.None?
    ensures Enabled(s, PassToken(0, true), past) && s' == Apply(s, PassToken(0, true), past)
    ensures Inv(s', past) && Passed(s, s', Level(s.ring[0].r))
    ensures Level(s'.ring[|s.ring| - 1].r) == Level(s.ring[0].r)
    ensures s'.ring[|s.ring| - 1].finish.Some? <==> s'.token.aru == past.lastSeq && s.ring[0].prev == past.lastSeq
  {
    var d, t := s.ring[0], Copy(s.token, true);
    assert MemberOk(d, past);
    s' := Apply(s, PassToken(0, true), past);
    NothingRequested(d.r.win.aru);
    PassedNow(s, past, 0, true);
    PassKeepsInv(s, past, 0, true);
    VisitGoes(d, past, t, 0);
    FinishWhen(d, t, 0, Commit(past, d.ring));
    var v := VisitToken(d, t, 0, Commit(past, d.ring)).value;
    var aru := A.Min(Stamped(d, t).aru, d.prev);
    VisitFields(d.r, aru);
    LevelKept(d, past, aru);
    StampHere(d, past, t);
    EvsNumbers(d.r, past.entries[d.ring], past.history[d.ring]);
    assert d.r.lastSeq == past.lastSeq && d.prev <= past.lastSeq;
    hide VisitToken, K.Inv, Level, Visit, Stamped, RequestsOk, Answerable, EvsInv, HandedUpKept, DiscardEvs, Passed, MemberOk;
  }

  lemma InstalledMoves(s: Sys, s': Sys, f: int, finished: bool)
    requires Installed(s, f) && s'.Up? && f < |s.ring| == |s'.ring| && (finished || f == 0)
    requires forall i :: 0 <= i < |s.ring| - 1 ==> s'.ring[i] == s.ring[i + 1]
    requires s'.ring[|s.ring| - 1].finish.Some? <==> finished
    ensures Installed(s', if finished then f + 1 else 0)
  {
    forall i | 0 <= i < |s.ring|
      ensures s'.ring[i].finish.Some? <==> |s.ring| - (if finished then f + 1 else 0) <= i
    {
      assert i < |s.ring| - 1 ==> s'.ring[i] == s.ring[i + 1];
    }
  }

  lemma AllStillHave(s: Sys, s': Sys, last: int)
    requires AllHave(s, last) && s'.Up? && 0 < |s.ring| == |s'.ring|
    requires forall i :: 0 <= i < |s.ring| - 1 ==> s'.ring[i] == s.ring[i + 1]
    requires Level(s'.ring[|s.ring| - 1].r) == Level(s.ring[0].r)
    ensures AllHave(s', last)
  {
    hide Level;
    forall i | 0 <= i < |s.ring|
      ensures Level(s'.ring[i].r) == last
    {
      assert i < |s.ring| - 1 ==> s'.ring[i] == s.ring[i + 1];
    }
  }

  lemma RaiseHappens(s: Sys, s': Sys, past: Past, m: int)
    requires Inv(s, past) && Passed(s, s', past.lastSeq) && s.token.aru < past.lastSeq == s'.token.aru && Installed(s, 0)
    requires 2 * |s.ring| + 1 <= m
    requires s'.ring[|s.ring| - 1].finish.Some? <==> s.ring[0].prev == past.lastSeq
    ensures Enough(s', past.lastSeq, m - 1)
  {
    var last, n := past.lastSeq, |s.ring|;
    if n > 1 {
      NobodyForwarded(s, past);
    }
    hide Inv;
    LineStarts(s, s', last, last);
    if n > 1 || s.ring[0].prev != last {
      InstalledMoves(s, s', 0, false);
      hide Passed, Installed, SplitAt;
      assert n + (n - 1) <= m - 1;
    } else {
      InstalledMoves(s, s', 0, true);
      hide Passed, Installed, SplitAt;
      assert n - 1 <= m - 1;
    }
  }

  lemma RaiseWaits(s: Sys, s': Sys, last: int, m: int, j: nat)
    requires Passed(s, s', last) && s.token.aru == s'.token.aru < last && Installed(s, 0)
    requires j < |s.ring| && s.ring[j].id == s.token.lastId && 2 * |s.ring| + 1 + j <= m
    requires s'.ring[|s.ring| - 1].finish.None?
    ensures Enough(s', last, m - 1)
  {
    InstalledMoves(s, s', 0, false);
    hide Installed;
    assert s.ring[0].id != s.token.lastId && s'.ring[j - 1].id == s'.token.lastId;
  }

  /** The aru has not reached the top: nobody finishes, and it rises in time. */
  lemma RaiseStep(s: Sys, s': Sys, past: Past, m: int)
    requires Inv(s, past) && Passed(s, s', past.lastSeq) && s.token.aru < past.lastSeq && Installed(s, 0)
    requires exists j :: 0 <= j < |s.ring| && s.ring[j].id == s.token.lastId && 2 * |s.ring| + 1 + j <= m
    requires s'.ring[|s.ring| - 1].finish.Some? <==> s'.token.aru == past.lastSeq && s.ring[0].prev == past.lastSeq
    ensures Enough(s', past.lastSeq, m - 1)
  {
    var j :| 0 <= j < |s.ring| && s.ring[j].id == s.token.lastId && 2 * |s.ring| + 1 + j <= m;
    assert s'.token.aru == past.lastSeq || s'.token.aru == s.token.aru;
    hide Inv, Installed, Enough, SplitAt, Passed;
    if s'.token.aru == past.lastSeq {
      RaiseHappens(s, s', past, m);
    } else {
      RaiseWaits(s, s', past.lastSeq, m, j);
    }
  }

  /** The aru is at the top: those who have not forwarded it like that do so, then all finish. */
  lemma TopStep(s: Sys, s': Sys, past: Past, m: int)
    requires Inv(s, past) && Passed(s, s', past.lastSeq) && Enough(s, past.lastSeq, m) && past.lastSeq <= s.token.aru
    requires s.ring[0].finish.None?
    requires s'.ring[|s.ring| - 1].finish.Some? <==> s'.token.aru == past.lastSeq && s.ring[0].prev == past.lastSeq
    ensures Enough(s', past.lastSeq, m - 1)
  {
    var last, n := past.lastSeq, |s.ring|;
    if n > 1 {
      AruAtMostLast(s, past);
    }
    hide Inv;
    if exists f :: s.token.aru == last && SplitAt(s, last, 0) && Installed(s, f) && n - f <= m {
      var f :| s.token.aru == last && SplitAt(s, last, 0) && Installed(s, f) && n - f <= m;
      LineMoves(s, s', last, last, 0);
      InstalledMoves(s, s', f, true);
    } else {
      var k :| SplitAt(s, last, k) && n + k <= m;
      var finished := s.ring[0].prev == last;
      InstalledMoves(s, s', 0, finished);
      if s.token.aru == last {
        LineMoves(s, s', last, last, k);
        assert finished ==> Installed(s', 1);
      } else {
        LineStarts(s, s', last, last);
        assert finished ==> Installed(s', 1) && SplitAt(s', last, 0);
      }
    }
  }

  // ----- the theorem

  /** u is what k visits of the token make of s, with nothing else happening. */
  ghost predicate Visits(s: Sys, k: nat, u: Sys, past: Past)
    decreases k
  {
    if k == 0 then u == s
    else exists v, step: EvsRing.Step :: Visits(s, k - 1, v, past) && step.PassToken? && Enabled(v, step, past) && u == Apply(v, step, past)
  }

  lemma VisitsOne(s: Sys, k: nat, v: Sys, step: EvsRing.Step, past: Past)
    requires Visits(s, k, v, past) && step.PassToken? && Enabled(v, step, past)
    ensures Visits(s, k + 1, Apply(v, step, past), past)
  {
    hide Enabled, Apply;
    var u := Apply(v, step, past);
    assert Visits(s, k, v, past) && step.PassToken? && Enabled(v, step, past) && u == Apply(v, step, past);
  }

  lemma {:induction false} Finish(s: Sys, start: Sys, done: nat, t: Sys, past: Past, m: nat) returns (u: Sys, k: nat)
    requires Reaches(s, t, past) && Visits(start, done, t, past)
    requires Inv(t, past) && AllHave(t, past.lastSeq) && Enough(t, past.lastSeq, m)
    ensures u.Up? && |u.ring| == |t.ring| && Reaches(s, u, past) && Visits(start, k, u, past) && k <= done + m
    ensures forall i :: 0 <= i < |u.ring| ==> u.ring[i].finish.Some?
    decreases m
  {
    hide Reaches, Visits, Inv, Level, Enough, Enabled, Apply;
    SizeOf(t, past);
    if t.ring[0].finish.Some? {
      AllFinished(t, past.lastSeq, m);
      u, k := t, done;
    } else {
      NotDone(t, past.lastSeq, m);
      var t1 := HurriedVisit(t, past);
      ReachesStep(s, t, PassToken(0, true), past);
      VisitsOne(start, done, t, PassToken(0, true), past);
      AllStillHave(t, t1, past.lastSeq);
      if past.lastSeq <= t.token.aru {
        TopStep(t, t1, past, m);
      } else {
        BelowTop(t, past.lastSeq, m);
        RaiseStep(t, t1, past, m);
      }
      u, k := Finish(s, start, done + 1, t1, past, m - 1);
    }
  }

  lemma BelowTop(t: Sys, last: int, m: int)
    requires Enough(t, last, m) && t.token.aru < last
    ensures Installed(t, 0) && exists j :: 0 <= j < |t.ring| && t.ring[j].id == t.token.lastId && 2 * |t.ring| + 1 + j <= m
  {
  }

  lemma AllFinished(t: Sys, last: int, m: int)
    requires Enough(t, last, m) && |t.ring| > 0 && t.ring[0].finish.Some?
    ensures forall i :: 0 <= i < |t.ring| ==> t.ring[i].finish.Some?
  {
    var f :| Installed(t, f);
    assert |t.ring| - f <= 0;
  }

  lemma NotDone(t: Sys, last: int, m: int)
    requires Enough(t, last, m) && |t.ring| > 0 && t.ring[0].finish.None?
    ensures 0 < m
  {
  }

  lemma NothingMissing(d: Survivor, past: Past)
    requires MemberOk(d, past) && forall q :: d.r.win.myAru < q <= d.r.win.highest ==> Exists(d.r, q)
    ensures Level(d.r) == past.lastSeq
  {
    LevelFacts(d.r, past.entries[d.ring], past.history[d.ring], 0);
    AdvanceStops(d.r, d.r.win.myAru);
    AdvanceOverFacts(d.r, d.r.win.myAru);
    EvsNumbers(d.r, past.entries[d.ring], past.history[d.ring]);
    hide EvsInv, HandedUpKept, DiscardEvs, AdvanceOver, Level;
  }

  /** From any state of a sound run in which nobody misses a packet and nobody has finished: at most
      three rotations, and everybody has installed the new membership. */
  lemma RecoveryEnds(s: Sys, t: Sys, past: Past) returns (u: Sys, k: nat)
    requires Ready(s, past) && Sound(s) && Reaches(s, t, past) && t.Up?
    requires forall i :: 0 <= i < |t.ring| ==> t.ring[i].finish.None?
    requires forall i, q :: 0 <= i < |t.ring| && t.ring[i].r.win.myAru < q <= t.ring[i].r.win.highest ==> Exists(t.ring[i].r, q)
    ensures u.Up? && |u.ring| == |t.ring| && Reaches(s, u, past) && Visits(t, k, u, past) && k <= 3 * |t.ring|
    ensures forall i :: 0 <= i < |u.ring| ==> u.ring[i].finish.Some?
  {
    ReadySteady(s, past);
    var path :| Path(path, s, t, past);
    PathKeepsSteady(path, s, t, past);
    forall i | 0 <= i < |t.ring|
      ensures Level(t.ring[i].r) == past.lastSeq
    {
      assert MemberOk(t.ring[i], past);
      NothingMissing(t.ring[i], past);
    }
    hide Reaches, Ready, Sound, Inv, Level, Exists, MemberOk;
    StartsEnough(t, past);
    assert Visits(t, 0, t, past);
    u, k := Finish(s, t, 0, t, past, 3 * |t.ring|);
  }

  lemma StartsEnough(t: Sys, past: Past)
    requires Steady(t, past) && forall i :: 0 <= i < |t.ring| ==> t.ring[i].finish.None?
    ensures Enough(t, past.lastSeq, 3 * |t.ring|)
  {
    SizeOf(t, past);
    PrevAtMostLast(t, past);
    if |t.ring| > 1 {
      AruAtMostLast(t, past);
    }
    hide Inv;
    assert Installed(t, 0);
    if t.token.aru == past.lastSeq {
      var k :| SplitAt(t, past.lastSeq, k);
      assert |t.ring| + k <= 3 * |t.ring|;
    } else if t.token.aru > past.lastSeq {
      assert SplitAt(t, past.lastSeq, if t.ring[0].prev < past.lastSeq then 1 else 0);
    }
  }
}

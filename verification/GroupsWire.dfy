/** The state exchange on the wire: how a daemon cuts its groups into GROUPS messages, and how the
    bytes of a message are read back. */
module GroupsWire {
  import opened G = Groups

  const MAX_GROUP_NAME := 32
  const GROUPS_BUF_SIZE := 100000
  const DATA_HEADER_SIZE := 48
  const GROUP_INFO_SIZE := MAX_GROUP_NAME + 12 + 2 + 2
  const DAEMON_INFO_SIZE := 4 + 8 + 2

  /** A daemon's members of a group, in the order of the skiplist. */
  datatype DaemonPart = DaemonPart(proc: int, memb: MembId, members: seq<Name>)

  /** A group, or as much of it as goes into one message. */
  datatype GroupPart = GroupPart(name: Name, id: GroupId, changed: bool, daemons: seq<DaemonPart>)

  // ----- cutting the list into buffers

  /** The next group and the next daemon in it. */
  datatype Cursor = Cursor(g: nat, d: nat)

  predicate CursorOk(groups: seq<GroupPart>, c: Cursor) {
    if c.g < |groups| then c.d <= |groups[c.g].daemons| else c == Cursor(|groups|, 0)
  }

  function DaemonSize(d: DaemonPart): nat {
    DAEMON_INFO_SIZE + |d.members| * MAX_GROUP_NAME
  }

  function DaemonsSize(ds: seq<DaemonPart>): nat {
    if ds == [] then 0 else DaemonsSize(ds[..|ds| - 1]) + DaemonSize(ds[|ds| - 1])
  }

  predicate DoesNotFit(size: nat, used: nat) {
    size + DATA_HEADER_SIZE > GROUPS_BUF_SIZE - used
  }

  /** How far the daemons of a group fit, from daemon d on. */
  function FillDaemons(ds: seq<DaemonPart>, d: nat, used: nat): (e: nat)
    requires d <= |ds|
    ensures d <= e <= |ds|
    decreases |ds| - d
  {
    if d == |ds| || DoesNotFit(DaemonSize(ds[d]), used) then d
    else FillDaemons(ds, d + 1, used + DaemonSize(ds[d]))
  }

  /** Daemons d to e (exclusive) of group g: what a message has of a group. */
  datatype Span = Span(g: nat, d: nat, e: nat)

  datatype Filled = Filled(spans: seq<Span>, next: Cursor)

  /** The loop of G_build_groups_buf. */
  function FillGroups(groups: seq<GroupPart>, c: Cursor, used: nat): (f: Filled)
    requires CursorOk(groups, c)
    ensures CursorOk(groups, f.next)
    decreases |groups| - c.g
  {
    if c.g == |groups| || DoesNotFit(GROUP_INFO_SIZE, used) then Filled([], c)
    else
      var g := groups[c.g];
      var e := FillDaemons(g.daemons, c.d, used + GROUP_INFO_SIZE);
      if e < |g.daemons| then Filled([Span(c.g, c.d, e)], Cursor(c.g, e))
      else
        var rest := FillGroups(groups, Cursor(c.g + 1, 0), used + GROUP_INFO_SIZE + DaemonsSize(g.daemons[c.d..e]));
        Filled([Span(c.g, c.d, e)] + rest.spans, rest.next)
  }

  /** The bytes in front of the groups: membership id, flag, and in the first message the synced set. */
  function Preamble(first: bool, synced: nat): nat {
    if first then 8 + 1 + 4 + 4 * synced else 8 + 1
  }

  /** Every daemon of every group fits a message of its own. */
  predicate Fit(groups: seq<GroupPart>) {
    forall i, d :: 0 <= i < |groups| && 0 <= d < |groups[i].daemons| ==>
      !DoesNotFit(DaemonSize(groups[i].daemons[d]), Preamble(false, 0) + GROUP_INFO_SIZE)
  }

  lemma {:induction false} FillForward(groups: seq<GroupPart>, c: Cursor, used: nat)
    requires CursorOk(groups, c)
    ensures
      var next := FillGroups(groups, c, used).next;
      next.g > c.g || (next.g == c.g && next.d >= c.d)
    decreases |groups| - c.g
  {
    if c.g < |groups| && !DoesNotFit(GROUP_INFO_SIZE, used) {
      var g := groups[c.g];
      var e := FillDaemons(g.daemons, c.d, used + GROUP_INFO_SIZE);
      if e == |g.daemons| {
        FillForward(groups, Cursor(c.g + 1, 0), used + GROUP_INFO_SIZE + DaemonsSize(g.daemons[c.d..e]));
      }
    }
  }

  /** A later message always gets something further. */
  lemma Progress(groups: seq<GroupPart>, c: Cursor)
    requires CursorOk(groups, c) && Fit(groups) && c.g < |groups|
    ensures
      var next := FillGroups(groups, c, Preamble(false, 0)).next;
      next.g > c.g || (next.g == c.g && next.d > c.d)
  {
    hide DaemonsSize;
    var used, g := Preamble(false, 0), groups[c.g];
    var e := FillDaemons(g.daemons, c.d, used + GROUP_INFO_SIZE);
    if e == |g.daemons| {
      FillForward(groups, Cursor(c.g + 1, 0), used + GROUP_INFO_SIZE + DaemonsSize(g.daemons[c.d..e]));
    } else {
      assert !DoesNotFit(DaemonSize(g.daemons[c.d]), used + GROUP_INFO_SIZE);
      assert e > c.d;
    }
  }

  /** G_build_new_groups_bufs: what is in each buffer, in the order the buffers are built. */
  function Split(groups: seq<GroupPart>, c: Cursor, first: bool, synced: nat): seq<seq<Span>>
    requires CursorOk(groups, c) && Fit(groups)
    decreases |groups| - c.g, if c.g < |groups| then |groups[c.g].daemons| - c.d else 0, if first then 1 else 0
  {
    var f := FillGroups(groups, c, Preamble(first, synced));
    FillForward(groups, c, Preamble(first, synced));
    if f.next.g == |groups| then [f.spans]
    else
      SplitDecreases(groups, c, first, synced);
      [f.spans] + Split(groups, f.next, false, synced)
  }

  lemma SplitDecreases(groups: seq<GroupPart>, c: Cursor, first: bool, synced: nat)
    requires CursorOk(groups, c) && Fit(groups)
    ensures
      var f := FillGroups(groups, c, Preamble(first, synced));
      f.next.g < |groups| ==>
        && c.g < |groups|
        && (f.next.g > c.g || (f.next.g == c.g && (f.next.d > c.d || (first && f.next.d >= c.d))))
  {
    hide FillGroups, DoesNotFit, Fit;
    FillForward(groups, c, Preamble(first, synced));
    if !first && c.g < |groups| {
      Progress(groups, c);
    }
  }

  // ----- nothing is left out, nothing sent twice

  /** The spans run through the list from one cursor to another without gap or overlap. */
  ghost predicate Chain(groups: seq<GroupPart>, spans: seq<Span>, from: Cursor, to: Cursor)
    decreases |spans|
  {
    if spans == [] then from == to
    else
      var s := spans[0];
      && s.g == from.g < |groups| && s.d == from.d <= s.e <= |groups[s.g].daemons|
      && (Chain(groups, spans[1..], Cursor(s.g, s.e), to)
          || (s.e == |groups[s.g].daemons| && Chain(groups, spans[1..], Cursor(s.g + 1, 0), to)))
  }

  function Concat(ss: seq<seq<Span>>): seq<Span> {
    if ss == [] then [] else ss[0] + Concat(ss[1..])
  }

  lemma {:induction false} ChainAppend(groups: seq<GroupPart>, a: seq<Span>, b: seq<Span>, from: Cursor, mid: Cursor, to: Cursor)
    requires Chain(groups, a, from, mid) && Chain(groups, b, mid, to)
    ensures Chain(groups, a + b, from, to)
    decreases |a|
  {
    if a == [] {
      assert a + b == b;
    } else {
      var s := a[0];
      assert (a + b)[1..] == a[1..] + b;
      if Chain(groups, a[1..], Cursor(s.g, s.e), mid) {
        ChainAppend(groups, a[1..], b, Cursor(s.g, s.e), mid, to);
      } else {
        ChainAppend(groups, a[1..], b, Cursor(s.g + 1, 0), mid, to);
      }
    }
  }

  lemma {:induction false} FillChains(groups: seq<GroupPart>, c: Cursor, used: nat)
    requires CursorOk(groups, c)
    ensures Chain(groups, FillGroups(groups, c, used).spans, c, FillGroups(groups, c, used).next)
    decreases |groups| - c.g
  {
    if c.g < |groups| && !DoesNotFit(GROUP_INFO_SIZE, used) {
      var g := groups[c.g];
      var e := FillDaemons(g.daemons, c.d, used + GROUP_INFO_SIZE);
      var f := FillGroups(groups, c, used);
      if e == |g.daemons| {
        var used' := used + GROUP_INFO_SIZE + DaemonsSize(g.daemons[c.d..e]);
        FillChains(groups, Cursor(c.g + 1, 0), used');
        assert f.spans[1..] == FillGroups(groups, Cursor(c.g + 1, 0), used').spans;
      } else {
        assert f.spans[1..] == [];
      }
    }
  }

  lemma {:induction false} SplitChains(groups: seq<GroupPart>, c: Cursor, first: bool, synced: nat)
    requires CursorOk(groups, c) && Fit(groups)
    ensures Chain(groups, Concat(Split(groups, c, first, synced)), c, Cursor(|groups|, 0))
    decreases |groups| - c.g, if c.g < |groups| then |groups[c.g].daemons| - c.d else 0, if first then 1 else 0
  {
    hide FillGroups, Chain, Fit, Preamble;
    var f := FillGroups(groups, c, Preamble(first, synced));
    FillChains(groups, c, Preamble(first, synced));
    if f.next.g == |groups| {
      assert Concat([f.spans]) == f.spans + Concat([]);
      assert f.spans + [] == f.spans;
    } else {
      SplitDecreases(groups, c, first, synced);
      var rest := Split(groups, f.next, false, synced);
      SplitChains(groups, f.next, false, synced);
      assert ([f.spans] + rest)[1..] == rest;
      ChainAppend(groups, f.spans, Concat(rest), c, f.next, Cursor(|groups|, 0));
    }
  }

  predicate Before(c: Cursor, g: nat, d: nat) {
    c.g < g || (c.g == g && c.d <= d)
  }

  /** Later spans start where earlier ones have ended. */
  lemma {:induction false} ChainOrder(groups: seq<GroupPart>, spans: seq<Span>, from: Cursor, to: Cursor)
    requires Chain(groups, spans, from, to)
    ensures forall i :: 0 <= i < |spans| ==>
              SpanOk(groups, spans[i]) && Before(from, spans[i].g, spans[i].d)
    ensures forall i, l :: 0 <= i < l < |spans| && spans[i].g == spans[l].g ==> spans[i].e <= spans[l].d
    decreases |spans|
  {
    if spans != [] {
      var s, rest := spans[0], spans[1..];
      assert forall i :: 0 < i < |spans| ==> spans[i] == rest[i - 1];
      if Chain(groups, rest, Cursor(s.g, s.e), to) {
        ChainOrder(groups, rest, Cursor(s.g, s.e), to);
      } else {
        ChainOrder(groups, rest, Cursor(s.g + 1, 0), to);
      }
    }
  }

  ghost predicate InSpan(spans: seq<Span>, g: nat, d: nat) {
    exists i :: 0 <= i < |spans| && spans[i].g == g && spans[i].d <= d < spans[i].e
  }

  lemma {:induction false} ChainCovers(groups: seq<GroupPart>, spans: seq<Span>, from: Cursor, g: nat, d: nat)
    requires Chain(groups, spans, from, Cursor(|groups|, 0))
    requires g < |groups| && d < |groups[g].daemons| && Before(from, g, d)
    ensures InSpan(spans, g, d)
    decreases |spans|
  {
    var s, rest := spans[0], spans[1..];
    if s.g == g && d < s.e {
      assert spans[0].g == g;
    } else {
      if Chain(groups, rest, Cursor(s.g, s.e), Cursor(|groups|, 0)) {
        ChainCovers(groups, rest, Cursor(s.g, s.e), g, d);
      } else {
        ChainCovers(groups, rest, Cursor(s.g + 1, 0), g, d);
      }
      var i :| 0 <= i < |rest| && rest[i].g == g && rest[i].d <= d < rest[i].e;
      assert spans[i + 1] == rest[i];
    }
  }

  // ----- a daemon that does not fit

  lemma {:induction false} FillStopsAt(ds: seq<DaemonPart>, d: nat, used: nat, bad: nat)
    requires d <= bad < |ds| && DoesNotFit(DaemonSize(ds[bad]), used)
    ensures FillDaemons(ds, d, used) <= bad
    decreases |ds| - d
  {
    if d < bad && !DoesNotFit(DaemonSize(ds[d]), used) {
      FillStopsAt(ds, d + 1, used + DaemonSize(ds[d]), bad);
    }
  }

  lemma {:induction false} NeverPast(groups: seq<GroupPart>, c: Cursor, used: nat, g: nat, d: nat)
    requires CursorOk(groups, c) && g < |groups| && d < |groups[g].daemons| && Before(c, g, d)
    requires DoesNotFit(DaemonSize(groups[g].daemons[d]), Preamble(false, 0) + GROUP_INFO_SIZE) && Preamble(false, 0) <= used
    ensures Before(FillGroups(groups, c, used).next, g, d)
    decreases |groups| - c.g
  {
    if !DoesNotFit(GROUP_INFO_SIZE, used) {
      var ds := groups[c.g].daemons;
      var e := FillDaemons(ds, c.d, used + GROUP_INFO_SIZE);
      if c.g == g {
        FillStopsAt(ds, c.d, used + GROUP_INFO_SIZE, d);
      } else if e == |ds| {
        NeverPast(groups, Cursor(c.g + 1, 0), used + GROUP_INFO_SIZE + DaemonsSize(ds[c.d..e]), g, d);
      }
    }
  }

  /** The cursor after k buffers. */
  function CursorAfter(groups: seq<GroupPart>, synced: nat, k: nat): (c: Cursor)
    ensures CursorOk(groups, c)
  {
    if k == 0 then Cursor(0, 0)
    else FillGroups(groups, CursorAfter(groups, synced, k - 1), Preamble(k == 1, synced)).next
  }

  lemma {:induction false} StuckForever(groups: seq<GroupPart>, synced: nat, k: nat, g: nat, d: nat)
    requires g < |groups| && d < |groups[g].daemons|
    requires DoesNotFit(DaemonSize(groups[g].daemons[d]), Preamble(false, 0) + GROUP_INFO_SIZE)
    ensures Before(CursorAfter(groups, synced, k), g, d)
  {
    if k > 0 {
      StuckForever(groups, synced, k - 1, g, d);
      NeverPast(groups, CursorAfter(groups, synced, k - 1), Preamble(k == 1, synced), g, d);
    }
  }

  lemma {:induction false} GetsThere(groups: seq<GroupPart>, synced: nat, k: nat) returns (n: nat)
    requires Fit(groups) && k >= 1
    ensures n >= 1 && CursorAfter(groups, synced, n).g == |groups|
    decreases
      |groups| - CursorAfter(groups, synced, k).g,
      var c := CursorAfter(groups, synced, k); if c.g < |groups| then |groups[c.g].daemons| - c.d else 0
  {
    hide Fit, FillGroups;
    var c := CursorAfter(groups, synced, k);
    if c.g == |groups| {
      n := k;
    } else {
      Progress(groups, c);
      n := GetsThere(groups, synced, k + 1);
    }
  }

  /** Cutting the list into messages comes to an end if and only if every daemon's list of members
      fits a message of its own. */
  lemma SplitEndsExactly(groups: seq<GroupPart>, synced: nat)
    ensures Fit(groups) <==> exists n: nat :: n >= 1 && CursorAfter(groups, synced, n).g == |groups|
  {
    if Fit(groups) {
      var n := GetsThere(groups, synced, 1);
    } else {
      var g, d :| 0 <= g < |groups| && 0 <= d < |groups[g].daemons|
                  && DoesNotFit(DaemonSize(groups[g].daemons[d]), Preamble(false, 0) + GROUP_INFO_SIZE);
      forall n: nat
        ensures CursorAfter(groups, synced, n).g != |groups|
      {
        StuckForever(groups, synced, n, g, d);
      }
    }
  }

  // ----- no buffer overflows

  predicate SpanOk(groups: seq<GroupPart>, s: Span) {
    s.g < |groups| && s.d <= s.e <= |groups[s.g].daemons|
  }

  function SpanSize(groups: seq<GroupPart>, s: Span): nat
    requires SpanOk(groups, s)
  {
    GROUP_INFO_SIZE + DaemonsSize(groups[s.g].daemons[s.d..s.e])
  }

  ghost predicate SpansOk(groups: seq<GroupPart>, spans: seq<Span>) {
    forall i :: 0 <= i < |spans| ==> SpanOk(groups, spans[i])
  }

  function SpansSize(groups: seq<GroupPart>, spans: seq<Span>): nat
    requires SpansOk(groups, spans)
  {
    if spans == [] then 0 else SpanSize(groups, spans[0]) + SpansSize(groups, spans[1..])
  }

  lemma {:induction false} DaemonsSizeFront(ds: seq<DaemonPart>)
    requires ds != []
    ensures DaemonsSize(ds) == DaemonSize(ds[0]) + DaemonsSize(ds[1..])
  {
    var n := |ds| - 1;
    if n > 0 {
      DaemonsSizeFront(ds[..n]);
      assert ds[..n][1..] == ds[1..][..n - 1];
    }
  }

  lemma {:induction false} DaemonsStayWithin(ds: seq<DaemonPart>, d: nat, used: nat)
    requires d <= |ds| && used + DATA_HEADER_SIZE <= GROUPS_BUF_SIZE
    ensures used + DaemonsSize(ds[d..FillDaemons(ds, d, used)]) + DATA_HEADER_SIZE <= GROUPS_BUF_SIZE
    decreases |ds| - d
  {
    var e := FillDaemons(ds, d, used);
    if e > d {
      DaemonsStayWithin(ds, d + 1, used + DaemonSize(ds[d]));
      DaemonsSizeFront(ds[d..e]);
      assert ds[d..e][1..] == ds[d + 1..e];
    } else {
      assert ds[d..e] == [];
    }
  }

  /** A message with its header never exceeds GROUPS_BUF_SIZE. */
  lemma {:induction false} GroupsStayWithin(groups: seq<GroupPart>, c: Cursor, used: nat)
    requires CursorOk(groups, c) && used + DATA_HEADER_SIZE <= GROUPS_BUF_SIZE
    ensures SpansOk(groups, FillGroups(groups, c, used).spans)
    ensures used + SpansSize(groups, FillGroups(groups, c, used).spans) + DATA_HEADER_SIZE <= GROUPS_BUF_SIZE
    decreases |groups| - c.g
  {
    if c.g < |groups| && !DoesNotFit(GROUP_INFO_SIZE, used) {
      var g := groups[c.g];
      var e := FillDaemons(g.daemons, c.d, used + GROUP_INFO_SIZE);
      var f := FillGroups(groups, c, used);
      hide DaemonsSize, FillDaemons;
      DaemonsStayWithin(g.daemons, c.d, used + GROUP_INFO_SIZE);
      if e == |g.daemons| {
        var used' := used + GROUP_INFO_SIZE + DaemonsSize(g.daemons[c.d..e]);
        GroupsStayWithin(groups, Cursor(c.g + 1, 0), used');
        assert f.spans[1..] == FillGroups(groups, Cursor(c.g + 1, 0), used').spans;
      } else {
        assert f.spans[1..] == [];
      }
    }
  }

  // ----- as much as fits

  /** A message that is not the last: its last group would not have taken one more daemon, or one more
      group would not have gone into it. */
  ghost predicate NoRoom(groups: seq<GroupPart>, spans: seq<Span>, used: nat, next: Cursor)
    requires SpansOk(groups, spans)
  {
    next.g < |groups| ==>
      var size := used + SpansSize(groups, spans);
      if spans != [] && spans[|spans| - 1].g == next.g then
        && spans[|spans| - 1].e == next.d < |groups[next.g].daemons|
        && size + DaemonSize(groups[next.g].daemons[next.d]) + DATA_HEADER_SIZE > GROUPS_BUF_SIZE
      else size + GROUP_INFO_SIZE + DATA_HEADER_SIZE > GROUPS_BUF_SIZE
  }

  lemma {:induction false} DaemonsFillUp(ds: seq<DaemonPart>, d: nat, used: nat)
    requires d <= |ds|
    ensures
      var e := FillDaemons(ds, d, used);
      e < |ds| ==> used + DaemonsSize(ds[d..e]) + DaemonSize(ds[e]) + DATA_HEADER_SIZE > GROUPS_BUF_SIZE
    decreases |ds| - d
  {
    var e := FillDaemons(ds, d, used);
    if e > d {
      DaemonsFillUp(ds, d + 1, used + DaemonSize(ds[d]));
      DaemonsSizeFront(ds[d..e]);
      assert ds[d..e][1..] == ds[d + 1..e];
    } else {
      assert ds[d..e] == [];
    }
  }

  /** The spans are those of the groups from c on, all whole but the last, and what comes next does
      not go in any more. */
  ghost predicate Greedy(groups: seq<GroupPart>, from: nat, used: nat, f: Filled) {
    && SpansOk(groups, f.spans) && NoRoom(groups, f.spans, used, f.next)
    && (forall i :: 0 <= i < |f.spans| ==> from <= f.spans[i].g)
    && (forall i :: 0 <= i < |f.spans| - 1 ==> f.spans[i].e == |groups[f.spans[i].g].daemons|)
  }

  /** Every message takes as much as goes into it: all its groups but the last are whole, and what
      comes next would not have fitted. */
  lemma {:induction false} FillIsGreedy(groups: seq<GroupPart>, c: Cursor, used: nat)
    requires CursorOk(groups, c)
    ensures Greedy(groups, c.g, used, FillGroups(groups, c, used))
    decreases |groups| - c.g
  {
    hide Greedy, FillDaemons, DaemonsSize;
    if c.g == |groups| || DoesNotFit(GROUP_INFO_SIZE, used) {
      GreedyNothing(groups, c, used);
    } else {
      var ds := groups[c.g].daemons;
      var e := FillDaemons(ds, c.d, used + GROUP_INFO_SIZE);
      if e < |ds| {
        GreedyPart(groups, c, used);
      } else {
        var used' := used + GROUP_INFO_SIZE + DaemonsSize(ds[c.d..e]);
        FillIsGreedy(groups, Cursor(c.g + 1, 0), used');
        FillForward(groups, Cursor(c.g + 1, 0), used');
        hide DoesNotFit;
        GreedyTogether(groups, Span(c.g, c.d, e), used, FillGroups(groups, Cursor(c.g + 1, 0), used'));
      }
    }
  }

  lemma GreedyNothing(groups: seq<GroupPart>, c: Cursor, used: nat)
    requires CursorOk(groups, c) && (c.g == |groups| || DoesNotFit(GROUP_INFO_SIZE, used))
    ensures Greedy(groups, c.g, used, Filled([], c))
  {
  }

  lemma GreedyPart(groups: seq<GroupPart>, c: Cursor, used: nat)
    requires CursorOk(groups, c) && c.g < |groups|
    requires FillDaemons(groups[c.g].daemons, c.d, used + GROUP_INFO_SIZE) < |groups[c.g].daemons|
    ensures
      var e := FillDaemons(groups[c.g].daemons, c.d, used + GROUP_INFO_SIZE);
      Greedy(groups, c.g, used, Filled([Span(c.g, c.d, e)], Cursor(c.g, e)))
  {
    DaemonsFillUp(groups[c.g].daemons, c.d, used + GROUP_INFO_SIZE);
    hide FillDaemons, DaemonsSize;
    var e := FillDaemons(groups[c.g].daemons, c.d, used + GROUP_INFO_SIZE);
    assert SpansSize(groups, [Span(c.g, c.d, e)]) == SpanSize(groups, Span(c.g, c.d, e));
  }

  lemma GreedyTogether(groups: seq<GroupPart>, s: Span, used: nat, rest: Filled)
    requires SpanOk(groups, s) && s.e == |groups[s.g].daemons| && s.g < rest.next.g
    requires Greedy(groups, s.g + 1, used + SpanSize(groups, s), rest)
    ensures Greedy(groups, s.g, used, Filled([s] + rest.spans, rest.next))
  {
    hide DaemonsSize;
    var all := [s] + rest.spans;
    assert all[1..] == rest.spans;
    assert forall i :: 0 < i < |all| ==> all[i] == rest.spans[i - 1];
  }

  // ----- the loops

  /** The inner loop: how far the daemons fit, and the bytes they take. */
  method FitDaemons(ds: seq<DaemonPart>, d: nat, used: nat) returns (e: nat, used1: nat)
    requires d <= |ds|
    ensures e == FillDaemons(ds, d, used) && used1 == used + DaemonsSize(ds[d..e])
  {
    e, used1 := d, used;
    assert ds[d..e] == [];
    while e < |ds| && !DoesNotFit(DaemonSize(ds[e]), used1)
      invariant d <= e <= |ds| && used1 == used + DaemonsSize(ds[d..e])
      invariant FillDaemons(ds, e, used1) == FillDaemons(ds, d, used)
    {
      assert ds[d..e + 1][..e - d] == ds[d..e];
      used1 := used1 + DaemonSize(ds[e]);
      e := e + 1;
    }
  }

  /** G_build_groups_buf. */
  method BuildBuf(groups: seq<GroupPart>, c: Cursor, first: bool, synced: nat) returns (spans: seq<Span>, next: Cursor)
    requires CursorOk(groups, c)
    ensures Filled(spans, next) == FillGroups(groups, c, Preamble(first, synced))
  {
    hide FillDaemons, DaemonsSize, DoesNotFit;
    spans, next := [], c;
    var used: nat := Preamble(first, synced);
    ghost var all := FillGroups(groups, c, used);
    assert [] + all.spans == all.spans;
    while next.g < |groups|
      invariant CursorOk(groups, next)
      invariant all.spans == spans + FillGroups(groups, next, used).spans
      invariant all.next == FillGroups(groups, next, used).next
      decreases |groups| - next.g
    {
      if DoesNotFit(GROUP_INFO_SIZE, used) {
        assert spans + [] == spans;
        return;
      }
      var ds := groups[next.g].daemons;
      var e, used1 := FitDaemons(ds, next.d, used + GROUP_INFO_SIZE);
      ghost var rest := FillGroups(groups, next, used).spans;
      assert rest == [Span(next.g, next.d, e)] + rest[1..];
      assert spans + rest == spans + [Span(next.g, next.d, e)] + rest[1..];
      spans := spans + [Span(next.g, next.d, e)];
      if e < |ds| {
        next := Cursor(next.g, e);
        assert spans + [] == spans;
        return;
      }
      used := used1;
      next := Cursor(next.g + 1, 0);
    }
    assert spans + [] == spans;
  }

  /** G_build_new_groups_bufs. */
  method BuildNewBufs(groups: seq<GroupPart>, synced: nat) returns (bufs: seq<seq<Span>>)
    requires Fit(groups)
    ensures bufs == Split(groups, Cursor(0, 0), true, synced)
  {
    hide FillGroups, Fit;
    var spans, next := BuildBuf(groups, Cursor(0, 0), true, synced);
    bufs := [spans];
    var first := true;
    ghost var all := Split(groups, Cursor(0, 0), true, synced);
    while next.g != |groups|
      invariant CursorOk(groups, next)
      invariant all == if next.g == |groups| then bufs else bufs + Split(groups, next, false, synced)
      decreases |groups| - next.g, if next.g < |groups| then |groups[next.g].daemons| - next.d else 0
    {
      SplitDecreases(groups, next, false, synced);
      ghost var rest := Split(groups, next, false, synced);
      spans, next := BuildBuf(groups, next, false, synced);
      assert bufs + rest == bufs + [spans] + rest[1..];
      bufs := bufs + [spans];
    }
  }
}

/** The state exchange, end to end: the messages that one synced set cuts its groups into, read in
    any order, rebuild exactly those groups. */
module GroupsRebuild {
  import opened Groups
  import opened GroupsWire

  // ----- a list of groups as it is sent

  function MemberSet(ms: seq<Name>): set<Name> {
    set m | m in ms
  }

  function ToEntries(ds: seq<DaemonPart>): map<int, Entry> {
    if ds == [] then map[]
    else ToEntries(ds[..|ds| - 1])[ds[|ds| - 1].proc := Entry(ds[|ds| - 1].memb, MemberSet(ds[|ds| - 1].members))]
  }

  function Part(groups: seq<GroupPart>, s: Span): GroupPart
    requires SpanOk(groups, s)
  {
    groups[s.g].(daemons := groups[s.g].daemons[s.d..s.e])
  }

  function ToRecord(p: GroupPart): Record {
    Record(p.name, p.id, p.changed, ToEntries(p.daemons))
  }

  /** The records of these spans, in the order sent. */
  function Records(groups: seq<GroupPart>, spans: seq<Span>): (rs: seq<Record>)
    requires SpansOk(groups, spans)
    ensures |rs| == |spans|
  {
    seq(|spans|, i requires 0 <= i < |spans| => ToRecord(Part(groups, spans[i])))
  }

  /** gs is the list with these groups, each with its name, its own membership id throughout, and
      no empty daemons. */
  ghost predicate Represents(groups: seq<GroupPart>, gs: GroupsList) {
    && (forall i, j :: 0 <= i < j < |groups| ==> groups[i].name != groups[j].name)
    && (forall i :: 0 <= i < |groups| ==> GroupOf(groups[i], gs))
    && (forall n :: n in gs ==> exists i :: 0 <= i < |groups| && groups[i].name == n)
  }

  ghost predicate GroupOf(p: GroupPart, gs: GroupsList) {
    && p.name in gs && p.id == gs[p.name].id && p.changed == gs[p.name].changed
    && ToEntries(p.daemons) == gs[p.name].daemons
    && DistinctProcs(p.daemons)
    && Counted(gs[p.name]) && Established(gs[p.name]) && p.id.memb.proc != -1
  }

  ghost predicate DistinctProcs(ds: seq<DaemonPart>) {
    forall i, j :: 0 <= i < j < |ds| ==> ds[i].proc != ds[j].proc
  }

  lemma {:induction false} EntriesOf(ds: seq<DaemonPart>)
    requires DistinctProcs(ds)
    ensures forall p :: p in ToEntries(ds) <==> exists i :: 0 <= i < |ds| && ds[i].proc == p
    ensures forall i :: 0 <= i < |ds| ==>
              ds[i].proc in ToEntries(ds) && ToEntries(ds)[ds[i].proc] == Entry(ds[i].memb, MemberSet(ds[i].members))
  {
    if ds != [] {
      var n := |ds| - 1;
      EntriesOf(ds[..n]);
      assert forall i :: 0 <= i < n ==> ds[..n][i] == ds[i];
    }
  }

  /** The list has exactly the daemons that are listed, each with its membership id and with exactly
      the members that are listed for it. */
  lemma RepresentedExactly(groups: seq<GroupPart>, gs: GroupsList, i: nat)
    requires Represents(groups, gs) && i < |groups|
    ensures
      var ds, name := groups[i].daemons, groups[i].name;
      && name in gs
      && (forall p :: p in gs[name].daemons <==> exists j :: 0 <= j < |ds| && ds[j].proc == p)
      && (forall j :: 0 <= j < |ds| ==> gs[name].daemons[ds[j].proc].memb == ds[j].memb)
      && (forall j, m :: 0 <= j < |ds| ==> (m in gs[name].daemons[ds[j].proc].members <==> m in ds[j].members))
  {
    assert GroupOf(groups[i], gs);
    EntriesOf(groups[i].daemons);
    hide ToEntries, Counted, Established;
  }

  /** A part of the daemons gives a part of the entries. */
  lemma PartEntries(ds: seq<DaemonPart>, d: nat, e: nat)
    requires DistinctProcs(ds) && d <= e <= |ds|
    ensures forall p :: p in ToEntries(ds[d..e]) <==> exists i :: d <= i < e && ds[i].proc == p
    ensures forall p :: p in ToEntries(ds[d..e]) ==> p in ToEntries(ds) && ToEntries(ds[d..e])[p] == ToEntries(ds)[p]
  {
    var part := ds[d..e];
    assert forall i :: 0 <= i < |part| ==> part[i] == ds[d + i];
    EntriesOf(ds);
    EntriesOf(part);
    hide ToEntries;
    forall p
      ensures p in ToEntries(part) <==> exists i :: d <= i < e && ds[i].proc == p
    {
      if i :| d <= i < e && ds[i].proc == p {
        assert part[i - d].proc == p;
      }
      if i :| 0 <= i < |part| && part[i].proc == p {
        assert ds[d + i].proc == p;
      }
    }
  }

  // ----- the records of a whole chain

  /** Two records with no daemon of one group in common. */
  predicate Apart(a: Record, b: Record) {
    a.name == b.name ==> a.daemons.Keys !! b.daemons.Keys
  }

  lemma RecordIsPart(groups: seq<GroupPart>, gs: GroupsList, s: Span)
    requires Represents(groups, gs) && SpanOk(groups, s)
    ensures PartOf(ToRecord(Part(groups, s)), gs)
  {
    assert GroupOf(groups[s.g], gs);
    PartEntries(groups[s.g].daemons, s.d, s.e);
    hide ToEntries, Counted, Established;
  }

  lemma SpansApart(groups: seq<GroupPart>, gs: GroupsList, s: Span, t: Span)
    requires Represents(groups, gs) && SpanOk(groups, s) && SpanOk(groups, t)
    requires s.g == t.g ==> s.e <= t.d
    ensures Apart(ToRecord(Part(groups, s)), ToRecord(Part(groups, t)))
  {
    assert s.g != t.g ==> groups[s.g].name != groups[t.g].name;
    assert GroupOf(groups[s.g], gs);
    hide ToEntries, Counted, Established;
    if s.g == t.g {
      var ds := groups[s.g].daemons;
      PartEntries(ds, s.d, s.e);
      PartEntries(ds, t.d, t.e);
      forall p | p in ToEntries(ds[s.d..s.e])
        ensures p !in ToEntries(ds[t.d..t.e])
      {
        var i :| s.d <= i < s.e && ds[i].proc == p;
        assert forall j :: t.d <= j < t.e ==> ds[i].proc != ds[j].proc;
      }
    }
  }

  ghost predicate AllApart(rs: seq<Record>) {
    forall i, l :: 0 <= i < l < |rs| ==> Apart(rs[i], rs[l])
  }

  lemma ChainRecords(groups: seq<GroupPart>, gs: GroupsList, spans: seq<Span>)
    requires Represents(groups, gs) && Chain(groups, spans, Cursor(0, 0), Cursor(|groups|, 0))
    ensures SpansOk(groups, spans)
    ensures forall i :: 0 <= i < |spans| ==> PartOf(Records(groups, spans)[i], gs)
    ensures AllApart(Records(groups, spans))
    ensures forall n, p :: n in gs && p in gs[n].daemons ==> InSome(Records(groups, spans), n, p)
  {
    ChainOrder(groups, spans, Cursor(0, 0), Cursor(|groups|, 0));
    var rs := Records(groups, spans);
    hide Chain, PartOf, Apart, InSome;
    forall i | 0 <= i < |spans|
      ensures PartOf(rs[i], gs)
    {
      RecordIsPart(groups, gs, spans[i]);
    }
    forall i, l | 0 <= i < l < |rs|
      ensures Apart(rs[i], rs[l])
    {
      assert SpanOk(groups, spans[i]) && SpanOk(groups, spans[l]);
      SpansApart(groups, gs, spans[i], spans[l]);
    }
    forall n, p | n in gs && p in gs[n].daemons
      ensures InSome(rs, n, p)
    {
      SpanFound(groups, gs, spans, n, p);
    }
  }

  lemma SpanFound(groups: seq<GroupPart>, gs: GroupsList, spans: seq<Span>, n: Name, p: int)
    requires Represents(groups, gs) && Chain(groups, spans, Cursor(0, 0), Cursor(|groups|, 0)) && SpansOk(groups, spans)
    requires n in gs && p in gs[n].daemons
    ensures InSome(Records(groups, spans), n, p)
  {
    var g :| 0 <= g < |groups| && groups[g].name == n;
    assert GroupOf(groups[g], gs);
    var ds := groups[g].daemons;
    EntriesOf(ds);
    hide ToEntries, Chain, Counted, Established, Represents, GroupOf;
    var d :| 0 <= d < |ds| && ds[d].proc == p;
    ChainCovers(groups, spans, Cursor(0, 0), g, d);
    var i :| 0 <= i < |spans| && spans[i].g == g && spans[i].d <= d < spans[i].e;
    InRecord(groups, spans[i], d);
    assert Records(groups, spans)[i] == ToRecord(Part(groups, spans[i]));
  }

  lemma InRecord(groups: seq<GroupPart>, s: Span, d: nat)
    requires SpanOk(groups, s) && s.d <= d < s.e && DistinctProcs(groups[s.g].daemons)
    ensures var r := ToRecord(Part(groups, s)); r.name == groups[s.g].name && groups[s.g].daemons[d].proc in r.daemons
  {
    PartEntries(groups[s.g].daemons, s.d, s.e);
    hide ToEntries;
  }

  // ----- any order

  lemma {:induction false} CountTwo<T>(s: seq<T>, i: nat, l: nat)
    requires i < l < |s| && s[i] == s[l]
    ensures multiset(s)[s[i]] >= 2
  {
    assert s == s[..l] + s[l..];
    assert s[i] in s[..l] && s[l] in s[l..];
    assert s[..l][i] == s[i] && s[l..][0] == s[l];
  }

  lemma {:induction false} TwoPlaces<T>(s: seq<T>, x: T) returns (i: nat, l: nat)
    requires multiset(s)[x] >= 2
    ensures i < l < |s| && s[i] == x && s[l] == x
  {
    var n := |s| - 1;
    assert s == s[..n] + [s[n]];
    if s[n] == x {
      assert x in multiset(s[..n]);
      i :| 0 <= i < n && s[..n][i] == x;
      l := n;
    } else {
      i, l := TwoPlaces(s[..n], x);
    }
  }

  lemma ApartInAnyOrder(rs: seq<Record>, qs: seq<Record>)
    requires multiset(rs) == multiset(qs) && AllApart(rs)
    ensures AllApart(qs)
  {
    forall i, l | 0 <= i < l < |qs|
      ensures Apart(qs[i], qs[l])
    {
      if qs[i] == qs[l] {
        CountTwo(qs, i, l);
        var a, b := TwoPlaces(rs, qs[i]);
        assert Apart(rs[a], rs[b]);
      } else {
        assert qs[i] in multiset(rs) && qs[l] in multiset(rs);
        var a :| 0 <= a < |rs| && rs[a] == qs[i];
        var b :| 0 <= b < |rs| && rs[b] == qs[l];
        assert a < b ==> Apart(rs[a], rs[b]);
        assert b < a ==> Apart(rs[b], rs[a]);
      }
    }
  }

  lemma SameMembers<T>(rs: seq<T>, qs: seq<T>, x: T)
    requires multiset(rs) == multiset(qs)
    ensures x in rs <==> x in qs
  {
    assert x in rs <==> x in multiset(rs);
    assert x in qs <==> x in multiset(qs);
  }

  /** A daemon that knows no groups, and the set whose messages it reads. */
  function TwoSets(gs: GroupsList): seq<GroupsList> {
    [map[], gs]
  }

  lemma OrderIsDelivered(groups: seq<GroupPart>, gs: GroupsList, spans: seq<Span>, qs: seq<Record>)
    requires Represents(groups, gs) && Chain(groups, spans, Cursor(0, 0), Cursor(|groups|, 0))
    requires SpansOk(groups, spans) && multiset(qs) == multiset(Records(groups, spans))
    ensures World(TwoSets(gs)) && Delivered(TwoSets(gs), 0, qs)
  {
    hide *;
    ChainRecords(groups, gs, spans);
    ApartInAnyOrder(Records(groups, spans), qs);
    DeliveredIn(gs, Records(groups, spans), qs);
    TwoSetsWorld(groups, gs);
  }

  lemma TwoSetsWorld(groups: seq<GroupPart>, gs: GroupsList)
    requires Represents(groups, gs)
    ensures World(TwoSets(gs))
  {
    hide Counted, Established, ToEntries, DistinctProcs;
    var sets := TwoSets(gs);
    forall n | n in gs
      ensures Counted(gs[n]) && Established(gs[n]) && gs[n].id.memb.proc != -1
    {
      var g :| 0 <= g < |groups| && groups[g].name == n;
      assert GroupOf(groups[g], gs);
    }
  }

  lemma DeliveredIn(gs: GroupsList, rs: seq<Record>, qs: seq<Record>)
    requires multiset(qs) == multiset(rs) && AllApart(qs)
    requires forall i :: 0 <= i < |rs| ==> PartOf(rs[i], gs)
    requires forall n, p :: n in gs && p in gs[n].daemons ==> InSome(rs, n, p)
    ensures Delivered(TwoSets(gs), 0, qs)
  {
    var sets := TwoSets(gs);
    hide PartOf;
    forall i | 0 <= i < |qs|
      ensures FromOther(sets, 0, qs[i])
    {
      SameMembers(rs, qs, qs[i]);
      var l :| 0 <= l < |rs| && rs[l] == qs[i];
      assert PartOf(qs[i], sets[1]);
    }
    forall n, p | n in gs && p in gs[n].daemons
      ensures InSome(qs, n, p)
    {
      assert InSome(rs, n, p);
      var i :| 0 <= i < |rs| && rs[i].name == n && p in rs[i].daemons;
      SameMembers(rs, qs, rs[i]);
      var l :| 0 <= l < |qs| && qs[l] == rs[i];
    }
    forall i, l | 0 <= i < l < |qs| && qs[i].name == qs[l].name
      ensures qs[i].daemons.Keys !! qs[l].daemons.Keys
    {
      assert Apart(qs[i], qs[l]);
    }
  }

  /** With everything delivered to a daemon that knew nothing, it knows what the sender knew. */
  lemma RebuiltGroup(gs: GroupsList, qs: seq<Record>, n: Name, g: Group)
    requires World(TwoSets(gs)) && Delivered(TwoSets(gs), 0, qs) && n in gs && GroupBuilt(TwoSets(gs), 0, qs, n, g)
    ensures g == gs[n]
  {
    var sets := TwoSets(gs);
    assert sets[1] == gs && sets[0] == map[];
    assert Counted(sets[1][n]);
    ChangedMeansMixed(sets, 0, qs, n, g);
    assert g.changed <==> gs[n].changed by {
      assert sets[1][n].changed == gs[n].changed;
    }
    hide Touched, Pairs;
    forall d
      ensures d in g.daemons <==> d in gs[n].daemons
    {
      Everybody(sets, 0, qs, n, g, d);
      assert d in sets[1][n].daemons <==> d in gs[n].daemons;
    }
    forall d | d in g.daemons
      ensures g.daemons[d] == gs[n].daemons[d]
    {
      assert FromSome(sets, n, d, g.daemons[d]);
    }
    assert g.daemons == gs[n].daemons;
  }

  /** The round trip: however many messages it takes, read in any order by a daemon that knows none
      of the groups, they rebuild the same groups with the same ids, daemons, members and counts. */
  lemma ExchangeRoundTrip(groups: seq<GroupPart>, gs: GroupsList, synced: nat, qs: seq<Record>)
    requires Represents(groups, gs) && Fit(groups)
    requires CursorOk(groups, Cursor(0, 0))
    requires
      var spans := Concat(Split(groups, Cursor(0, 0), true, synced));
      SpansOk(groups, spans) ==> multiset(qs) == multiset(Records(groups, spans))
    ensures AbsorbAll(map[], qs) == gs
  {
    var spans, sets := Concat(Split(groups, Cursor(0, 0), true, synced)), TwoSets(gs);
    SplitChains(groups, Cursor(0, 0), true, synced);
    hide Fit, Chain, World, Delivered, Built, GroupBuilt, AbsorbAll, Split;
    ChainRecords(groups, gs, spans);
    OrderIsDelivered(groups, gs, spans, qs);
    DeliveredSoFar(sets, 0, qs);
    AbsorbAllBuilds(sets, 0, qs);
    var built := AbsorbAll(map[], qs);
    assert sets[0] == map[];
    forall n
      ensures n in built <==> n in gs
    {
      SameNames(sets, 0, qs, built, n);
      InTwo(gs, n);
    }
    forall n | n in built
      ensures built[n] == gs[n]
    {
      BuiltMeans(sets, qs, built, n);
      RebuiltGroup(gs, qs, n, built[n]);
    }
  }

  lemma InTwo(gs: GroupsList, n: Name)
    ensures (exists j :: 0 <= j < |TwoSets(gs)| && n in TwoSets(gs)[j]) <==> n in gs
  {
    assert TwoSets(gs)[1] == gs;
  }

  lemma BuiltMeans(sets: seq<GroupsList>, qs: seq<Record>, built: GroupsList, n: Name)
    requires |sets| > 0 && Built(sets, 0, qs, built) && n in built
    ensures GroupBuilt(sets, 0, qs, n, built[n])
  {
  }
}

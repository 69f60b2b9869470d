/** Which owners a reference inventory covers: the closure of its seeds under ledger links,
    recorded dependencies, reference edges in both directions and shared series. */
module Selection {
  import opened Text

  /** An owner, by its canonical encoding. */
  type Owner = Text

  datatype Edge = Edge(owner: Owner, target: Owner, reason: string)

  /** Everything the selection reads but does not change: the owners with a live snapshot and
      their series, the links of the ledger, what replaying each owner's history says it depends
      on, the owners whose history does not replay, and those whose recovery flag is wrong. */
  datatype Context = Context(
    snapshots: set<Owner>, links: map<Owner, set<Owner>>, dependencies: map<Owner, set<Owner>>,
    series: map<Owner, set<int>>, rootSeries: map<Owner, Option<int>>, broken: set<Owner>, flagged: set<Owner>)
  {
    function Dependencies(o: Owner): set<Owner> { if o in dependencies then dependencies[o] else {} }

    function Series(o: Owner): set<int> { if o in series then series[o] else {} }

    predicate InSeries(o: Owner, ids: set<int>) { o in rootSeries && rootSeries[o].Some? && rootSeries[o].value in ids }
  }

  datatype Closure = Closure(selected: set<Owner>, relevant: set<Owner>, series: set<int>)

  predicate Below(a: Closure, b: Closure) {
    a.selected <= b.selected && a.relevant <= b.relevant && a.series <= b.series
  }

  // ----- Closed under everything -----

  predicate EdgesClosed(edges: set<Edge>, selected: set<Owner>) {
    forall e :: e in edges ==> (e.owner in selected <==> e.target in selected)
  }

  predicate LinksClosed(c: Context, relevant: set<Owner>) {
    forall o :: o in c.links && (o in relevant || c.links[o] * relevant != {}) ==>
      o in relevant && c.links[o] <= relevant
  }

  predicate DependenciesClosed(c: Context, relevant: set<Owner>) {
    forall o :: o in relevant ==> c.Dependencies(o) <= relevant
  }

  predicate SeriesClosed(c: Context, x: Closure) {
    && (forall o :: o in x.selected ==> c.Series(o) <= x.series)
    && (forall o :: o in c.rootSeries && c.InSeries(o, x.series) ==> o in x.selected)
  }

  /** History and live owners agree: what is selected is relevant, and what is relevant and
      still has a snapshot is selected. */
  predicate LiveClosed(c: Context, x: Closure) { x.selected <= x.relevant && x.relevant * c.snapshots <= x.selected }

  predicate Closed(c: Context, edges: set<Edge>, x: Closure) {
    LiveClosed(c, x) && LinksClosed(c, x.relevant) && DependenciesClosed(c, x.relevant)
    && EdgesClosed(edges, x.selected) && SeriesClosed(c, x)
  }

  ghost predicate Least(c: Context, edges: set<Edge>, seeds: Closure, x: Closure) {
    forall y :: Below(seeds, y) && Closed(c, edges, y) ==> Below(x, y)
  }

  /** What the inventory's readers hand over: every edge joins two live owners. */
  predicate Given(c: Context, edges: set<Edge>, seeds: Closure) {
    && seeds.selected <= c.snapshots && c.rootSeries.Keys == c.snapshots
    && (forall e :: e in edges ==> e.owner in c.snapshots && e.target in c.snapshots)
  }

  // ----- The passes of one round -----

  lemma Covered(done: set<Owner>, all: set<Owner>)
    requires done <= all && all - done == {}
    ensures done == all
  {
    forall o | o in all ensures o in done { assert o !in all - done; }
  }

  predicate Touches(c: Context, owners: set<Owner>, o: Owner)
    requires o in c.links
  {
    o in owners || c.links[o] * owners != {}
  }

  /** The owners linked to these, directly, by the listed rows of the ledger. */
  function Linked(c: Context, owners: set<Owner>, rows: set<Owner>): set<Owner>
    requires rows <= c.links.Keys
  {
    set o, x | o in rows && Touches(c, owners, o) && x in c.links[o] + {o} :: x
  }

  lemma LinkedStep(c: Context, owners: set<Owner>, rows: set<Owner>, o: Owner)
    requires rows <= c.links.Keys && o in c.links
    ensures Linked(c, owners, rows + {o})
      == Linked(c, owners, rows) + if Touches(c, owners, o) then {o} + c.links[o] else {}
  {
    var more := Linked(c, owners, rows + {o});
    if Touches(c, owners, o) {
      forall x | x in {o} + c.links[o] ensures x in more {
        assert o in rows + {o} && x in c.links[o] + {o};
      }
    }
    forall x | x in Linked(c, owners, rows) ensures x in more {
      var q :| q in rows && Touches(c, owners, q) && x in c.links[q] + {q};
      assert q in rows + {o};
    }
  }

  method Neighbours(c: Context, owners: set<Owner>) returns (result: set<Owner>)
    ensures result == Linked(c, owners, c.links.Keys)
  {
    hide Linked;
    result := {};
    var done: set<Owner> := {};
    NothingLinked(c, owners);
    while c.links.Keys - done != {}
      invariant done <= c.links.Keys && result == Linked(c, owners, done)
      decreases c.links.Keys - done
    {
      var o :| o in c.links.Keys - done;
      LinkedStep(c, owners, done, o);
      if Touches(c, owners, o) { result := result + ({o} + c.links[o]); }
      done := done + {o};
    }
    Covered(done, c.links.Keys);
  }

  lemma NothingLinked(c: Context, owners: set<Owner>)
    ensures Linked(c, owners, {}) == {}
  {
  }

  /** What the histories of these owners depend on. */
  function Required(c: Context, owners: set<Owner>): set<Owner> {
    set o, x | o in owners && x in c.Dependencies(o) :: x
  }

  function LedgerEdges(c: Context, owners: set<Owner>): set<Edge> {
    set o, x | o in owners && o in c.snapshots && x in c.Dependencies(o) && x in c.snapshots && o != x
      :: Edge(o, x, "identity_ledger")
  }

  lemma RequiredStep(c: Context, owners: set<Owner>, o: Owner)
    ensures Required(c, owners + {o}) == Required(c, owners) + c.Dependencies(o)
  {
    forall x | x in c.Dependencies(o) ensures x in Required(c, owners + {o}) { assert o in owners + {o}; }
    forall x | x in Required(c, owners) ensures x in Required(c, owners + {o}) {
      var q :| q in owners && x in c.Dependencies(q);
      assert q in owners + {o};
    }
  }

  lemma LedgerEdgesStep(c: Context, owners: set<Owner>, o: Owner)
    ensures LedgerEdges(c, owners + {o}) == LedgerEdges(c, owners) + LedgerEdges(c, {o})
  {
  }

  /** Where the replay stands after these owners. */
  datatype Progress = Progress(relevant: set<Owner>, selected: set<Owner>, edges: set<Edge>)

  function Replayed(c: Context, start: Progress, done: set<Owner>): Progress {
    Progress(start.relevant + Required(c, done), start.selected + Required(c, done) * c.snapshots,
             start.edges + LedgerEdges(c, done))
  }

  function ReplayOne(c: Context, p: Progress, o: Owner): Progress {
    Progress(p.relevant + c.Dependencies(o), p.selected + c.Dependencies(o) * c.snapshots,
             if o in c.snapshots then p.edges + LedgerEdgesOf(c, o) else p.edges)
  }

  lemma ReplayStep(c: Context, start: Progress, done: set<Owner>, o: Owner)
    ensures Replayed(c, start, done + {o}) == ReplayOne(c, Replayed(c, start, done), o)
  {
    hide Required;
    hide LedgerEdges;
    RequiredStep(c, done, o);
    LedgerEdgesStep(c, done, o);
    OwnLedgerEdges(c, o);
  }

  /** Replaying the history of every owner relevant so far; it fails on a history that does
      not replay and on a wrong recovery flag of a selected owner. */
  method Replay(c: Context, start: Progress) returns (ok: bool, p: Progress)
    ensures ok ==> p == Replayed(c, start, start.relevant)
    ensures ok ==> start.relevant * c.broken == {} && start.relevant * start.selected * c.flagged == {}
    ensures !ok ==> Fails(c, Replayed(c, start, start.relevant), start.relevant)
  {
    hide Replayed;
    p := start;
    var done: set<Owner> := {};
    NothingReplayed(c, start);
    while start.relevant - done != {}
      invariant done <= start.relevant && p == Replayed(c, start, done) && start.selected <= p.selected
      invariant done * c.broken == {} && done * start.selected * c.flagged == {}
      decreases start.relevant - done
    {
      var o :| o in start.relevant - done;
      if o in c.broken {
        FailsNow(c, start, done, o);
        return false, p;
      }
      ReplayStep(c, start, done, o);
      p := ReplayOne(c, p, o);
      if o in p.selected && o in c.flagged {
        FailsNow(c, start, done + {o}, o);
        return false, p;
      }
      done := done + {o};
    }
    Covered(done, start.relevant);
    ok := true;
  }

  predicate Fails(c: Context, p: Progress, relevant: set<Owner>) {
    relevant * c.broken != {} || relevant * p.selected * c.flagged != {}
  }

  lemma FailsNow(c: Context, start: Progress, done: set<Owner>, o: Owner)
    requires done <= start.relevant && o in start.relevant
    requires o in c.broken || (o in c.flagged && o in Replayed(c, start, done).selected)
    ensures Fails(c, Replayed(c, start, start.relevant), start.relevant)
  {
    hide Required;
    hide LedgerEdges;
    RequiredMore(c, done, start.relevant);
    var p := Replayed(c, start, start.relevant);
    if o in c.broken {
      assert o in start.relevant * c.broken;
    } else {
      assert o in start.relevant * p.selected * c.flagged;
    }
  }

  lemma NothingReplayed(c: Context, start: Progress)
    ensures Replayed(c, start, {}) == start
  {
  }

  function LedgerEdgesOf(c: Context, o: Owner): set<Edge> {
    set x | x in c.Dependencies(o) && x in c.snapshots && o != x :: Edge(o, x, "identity_ledger")
  }

  lemma OwnLedgerEdges(c: Context, o: Owner)
    ensures LedgerEdges(c, {o}) == if o in c.snapshots then LedgerEdgesOf(c, o) else {}
  {
  }

  lemma RequiredMore(c: Context, fewer: set<Owner>, more: set<Owner>)
    requires fewer <= more
    ensures Required(c, fewer) <= Required(c, more)
  {
  }

  ghost predicate Followed(edges: set<Edge>, selected0: set<Owner>, selected: set<Owner>) {
    && selected0 <= selected
    && (selected == selected0 ==> EdgesClosed(edges, selected))
    && (forall s :: selected0 <= s && EdgesClosed(edges, s) ==> selected <= s)
  }

  /** One pass over the edges, in any order. It may stop short of the closure, but it changes
      nothing only when the selection is closed. */
  method FollowEdges(edges: set<Edge>, selected0: set<Owner>) returns (selected: set<Owner>)
    ensures Followed(edges, selected0, selected)
  {
    selected := selected0;
    var rest := edges;
    while rest != {}
      invariant rest <= edges && selected0 <= selected
      invariant selected == selected0 ==> EdgesClosed(edges - rest, selected)
      invariant forall s :: selected0 <= s && EdgesClosed(edges, s) ==> selected <= s
      decreases |rest|
    {
      var e :| e in rest;
      if e.owner in selected || e.target in selected { selected := selected + {e.owner, e.target}; }
      rest := rest - {e};
    }
    assert edges - rest == edges;
  }

  function SeriesOf(c: Context, selected: set<Owner>): set<int> {
    set o, i | o in selected && i in c.Series(o) :: i
  }

  function OwnersIn(c: Context, ids: set<int>): set<Owner> { set o | o in c.rootSeries && c.InSeries(o, ids) }

  method GatherSeries(c: Context, selected: set<Owner>, series: set<int>) returns (result: set<int>)
    ensures result == series + SeriesOf(c, selected)
  {
    hide SeriesOf;
    result := series;
    var done: set<Owner> := {};
    NoSeries(c);
    while selected - done != {}
      invariant done <= selected && result == series + SeriesOf(c, done)
      decreases selected - done
    {
      var o :| o in selected - done;
      SeriesStep(c, done, o);
      result := result + c.Series(o);
      done := done + {o};
    }
    Covered(done, selected);
  }

  lemma NoSeries(c: Context)
    ensures SeriesOf(c, {}) == {}
  {
  }

  lemma SeriesStep(c: Context, done: set<Owner>, o: Owner)
    ensures SeriesOf(c, done + {o}) == SeriesOf(c, done) + c.Series(o)
  {
    forall i | i in c.Series(o) ensures i in SeriesOf(c, done + {o}) { assert o in done + {o}; }
    forall i | i in SeriesOf(c, done) ensures i in SeriesOf(c, done + {o}) {
      var q :| q in done && i in c.Series(q);
      assert q in done + {o};
    }
  }

  // ----- One round -----

  datatype Round = Failed | Next(closure: Closure, edges: set<Edge>)

  /** The start of the replay: relevance extended by links, selection by relevance. */
  function Extended(c: Context, x: Closure, edges: set<Edge>): Progress {
    var r1 := x.relevant + x.selected;
    var r2 := r1 + Linked(c, r1, c.links.Keys);
    Progress(r2, x.selected + r2 * c.snapshots, edges)
  }

  /** How a round that does not fail gets from `x` to its result. */
  ghost predicate RoundOk(c: Context, x: Closure, edges: set<Edge>, y: Closure, more: set<Edge>) {
    var start := Extended(c, x, edges);
    var p := Replayed(c, start, start.relevant);
    && start.relevant * c.broken == {} && start.relevant * start.selected * c.flagged == {}
    && y.relevant == p.relevant && more == p.edges
    && exists followed :: Followed(p.edges, p.selected, followed)
         && y.series == x.series + SeriesOf(c, followed) && y.selected == followed + OwnersIn(c, y.series)
  }

  method OneRound(c: Context, x: Closure, edges: set<Edge>) returns (r: Round)
    ensures r.Next? ==> RoundOk(c, x, edges, r.closure, r.edges)
    ensures r.Failed? ==>
      var start := Extended(c, x, edges);
      Fails(c, Replayed(c, start, start.relevant), start.relevant)
  {
    hide Linked;
    hide Replayed;
    hide Followed;
    hide SeriesOf;
    hide OwnersIn;
    hide Fails;
    var relevant := x.relevant + x.selected;
    var near := Neighbours(c, relevant);
    relevant := relevant + near;
    var start := Progress(relevant, x.selected + relevant * c.snapshots, edges);
    var ok, p := Replay(c, start);
    if !ok { return Failed; }
    var selected := FollowEdges(p.edges, p.selected);
    var series := GatherSeries(c, selected, x.series);
    assert Followed(p.edges, p.selected, selected);
    r := Next(Closure(selected + OwnersIn(c, series), p.relevant, series), p.edges);
  }

  /** Ledger edges only join owners that a closed selection holds anyway. */
  lemma LedgerEdgesHarmless(c: Context, edges: set<Edge>, y: Closure, relevant: set<Owner>)
    requires Closed(c, edges, y) && relevant <= y.relevant
    ensures EdgesClosed(edges + LedgerEdges(c, relevant), y.selected)
  {
    forall e | e in LedgerEdges(c, relevant) ensures e.owner in y.selected && e.target in y.selected {
      assert e.owner in y.relevant * c.snapshots;
      assert c.Dependencies(e.owner) <= y.relevant;
      assert e.target in y.relevant * c.snapshots;
    }
  }

  lemma LinkedBelow(c: Context, y: Closure, relevant: set<Owner>)
    requires LinksClosed(c, y.relevant) && relevant <= y.relevant
    ensures Linked(c, relevant, c.links.Keys) <= y.relevant
  {
    forall o, x | o in c.links && Touches(c, relevant, o) && x in c.links[o] + {o} ensures x in y.relevant {
      assert Touches(c, y.relevant, o);
    }
  }

  lemma RequiredBelow(c: Context, y: Closure, relevant: set<Owner>)
    requires DependenciesClosed(c, y.relevant) && relevant <= y.relevant
    ensures Required(c, relevant) <= y.relevant
  {
  }

  /** A round never leaves a closed set it started in. */
  lemma StartBelow(c: Context, edges0: set<Edge>, x: Closure, edges: set<Edge>, y: Closure)
    requires Below(x, y) && Closed(c, edges0, y)
    ensures
      var start := Extended(c, x, edges);
      var p := Replayed(c, start, start.relevant);
      start.relevant <= y.relevant && p.relevant <= y.relevant && p.selected <= y.selected
  {
    hide Linked;
    hide Required;
    hide LinksClosed;
    hide DependenciesClosed;
    hide EdgesClosed;
    hide SeriesClosed;
    hide LedgerEdges;
    var r1 := x.relevant + x.selected;
    LinkedBelow(c, y, r1);
    RequiredBelow(c, y, Extended(c, x, edges).relevant);
  }

  lemma RoundBelow(c: Context, edges0: set<Edge>, x: Closure, edges: set<Edge>, next: Closure, more: set<Edge>,
          y: Closure)
    requires Below(x, y) && Closed(c, edges0, y) && RoundOk(c, x, edges, next, more)
    requires edges0 <= edges <= edges0 + LedgerEdges(c, x.relevant)
    ensures Below(next, y) && edges0 <= more <= edges0 + LedgerEdges(c, next.relevant)
  {
    hide Linked;
    hide Required;
    hide LedgerEdges;
    hide EdgesClosed;
    StartBelow(c, edges0, x, edges, y);
    var start := Extended(c, x, edges);
    var p := Replayed(c, start, start.relevant);
    LedgerEdgesMore(c, x.relevant, p.relevant);
    LedgerEdgesMore(c, start.relevant, p.relevant);
    LedgerEdgesHarmless(c, edges0, y, p.relevant);
    FewerEdges(p.edges, edges0 + LedgerEdges(c, p.relevant), y.selected);
  }

  lemma LedgerEdgesMore(c: Context, fewer: set<Owner>, more: set<Owner>)
    requires fewer <= more
    ensures LedgerEdges(c, fewer) <= LedgerEdges(c, more)
  {
  }

  lemma FewerEdges(fewer: set<Edge>, more: set<Edge>, selected: set<Owner>)
    requires fewer <= more && EdgesClosed(more, selected)
    ensures EdgesClosed(fewer, selected)
  {
  }

  /** A round that changes neither owners nor relevance has closed everything. */
  lemma QuietRoundCloses(c: Context, x: Closure, edges: set<Edge>, next: Closure, more: set<Edge>)
    requires RoundOk(c, x, edges, next, more) && next.selected == x.selected && next.relevant == x.relevant
    ensures Closed(c, more, next) && next.relevant * c.broken == {} && next.selected * c.flagged == {}
    ensures more == edges + LedgerEdges(c, next.relevant)
  {
    hide Linked;
    hide Required;
    hide LedgerEdges;
    hide EdgesClosed;
    hide SeriesOf;
    hide OwnersIn;
    var start := Extended(c, x, edges);
    var p := Replayed(c, start, start.relevant);
    assert x.relevant + x.selected == x.relevant && start.relevant == x.relevant && start.selected == x.selected;
    var followed :| Followed(p.edges, p.selected, followed)
      && next.series == x.series + SeriesOf(c, followed) && next.selected == followed + OwnersIn(c, next.series);
    assert followed == p.selected && followed == x.selected;
    QuietLinks(c, x.relevant);
    QuietSeries(c, next);
  }

  lemma QuietLinks(c: Context, relevant: set<Owner>)
    ensures Linked(c, relevant, c.links.Keys) <= relevant ==> LinksClosed(c, relevant)
    ensures Required(c, relevant) <= relevant ==> DependenciesClosed(c, relevant)
  {
    if Linked(c, relevant, c.links.Keys) <= relevant {
      forall o | o in c.links && Touches(c, relevant, o) ensures o in relevant && c.links[o] <= relevant {
        forall x | x in c.links[o] + {o} ensures x in relevant { assert x in Linked(c, relevant, c.links.Keys); }
      }
    }
    if Required(c, relevant) <= relevant {
      forall o, x | o in relevant && x in c.Dependencies(o) ensures x in relevant { assert x in Required(c, relevant); }
    }
  }

  lemma QuietSeries(c: Context, x: Closure)
    ensures SeriesOf(c, x.selected) <= x.series && OwnersIn(c, x.series) <= x.selected ==> SeriesClosed(c, x)
  {
    if SeriesOf(c, x.selected) <= x.series && OwnersIn(c, x.series) <= x.selected {
      forall o, i | o in x.selected && i in c.Series(o) ensures i in x.series { assert i in SeriesOf(c, x.selected); }
      forall o | o in c.rootSeries && c.InSeries(o, x.series)
        ensures o in x.selected
      {
        assert o in OwnersIn(c, x.series);
      }
    }
  }

  // ----- The loop -----

  /** The closure that holds everything: a bound on what the loop can reach. */
  function Everything(c: Context, seeds: Closure): Closure {
    Closure(c.snapshots,
            c.snapshots + seeds.relevant + c.links.Keys + (set o, x | o in c.links && x in c.links[o] :: x)
              + (set o, x | o in c.dependencies && x in c.dependencies[o] :: x),
            seeds.series + set o, i | o in c.series && i in c.series[o] :: i)
  }

  lemma EverythingClosed(c: Context, edges: set<Edge>, seeds: Closure)
    requires Given(c, edges, seeds)
    ensures Below(seeds, Everything(c, seeds)) && Closed(c, edges, Everything(c, seeds))
  {
    var top := Everything(c, seeds);
    forall o, i | o in c.series && i in c.series[o] ensures i in top.series {
    }
    forall o, x | o in c.links && x in c.links[o] ensures x in top.relevant {
    }
    forall o, x | o in c.dependencies && x in c.dependencies[o] ensures x in top.relevant {
    }
    assert forall o :: o in c.series ==> c.series[o] <= top.series;
    assert SeriesClosed(c, top);
    assert LinksClosed(c, top.relevant) && DependenciesClosed(c, top.relevant);
  }

  datatype Outcome = Refused | Chosen(closure: Closure, edges: set<Edge>)

  /** The loop ends. It chooses the least set that holds the seeds and is closed, unless some
      owner of that set has a history that does not replay or a wrong recovery flag. */
  method Select(c: Context, edges0: set<Edge>, seeds: Closure) returns (r: Outcome)
    requires Given(c, edges0, seeds)
    ensures r.Chosen? ==>
      && Below(seeds, r.closure) && Closed(c, r.edges, r.closure) && Closed(c, edges0, r.closure)
      && Least(c, edges0, seeds, r.closure)
      && r.closure.relevant * c.broken == {} && r.closure.selected * c.flagged == {}
      && r.edges == edges0 + LedgerEdges(c, r.closure.relevant)
    ensures r.Refused? ==> forall y :: Below(seeds, y) && Closed(c, edges0, y) ==>
      y.relevant * c.broken != {} || y.selected * c.flagged != {}
  {
    hide Everything;
    hide Closed;
    hide RoundOk;
    hide LedgerEdges;
    hide Least;
    hide Extended;
    hide Replayed;
    hide Fails;
    var x := Closure(seeds.selected + seeds.relevant * c.snapshots, seeds.relevant, seeds.series);
    var edges := edges0;
    ghost var top := Everything(c, seeds);
    EverythingClosed(c, edges0, seeds);
    SeedsLeast(c, edges0, seeds);
    while true
      invariant Below(seeds, x) && Least(c, edges0, seeds, x)
      invariant edges0 <= edges <= edges0 + LedgerEdges(c, x.relevant)
      decreases top.relevant - x.relevant, top.selected - x.selected
    {
      var round := OneRound(c, x, edges);
      LeastIs(c, edges0, seeds, x, top);
      if round.Failed? {
        RoundRefuses(c, edges0, seeds, x, edges);
        return Refused;
      }
      var next := round.closure;
      RoundLeast(c, edges0, seeds, x, edges, next, round.edges);
      RoundGrows(c, x, edges, next, round.edges);
      LeastIs(c, edges0, seeds, next, top);
      if next.selected == x.selected && next.relevant == x.relevant {
        QuietRoundCloses(c, x, edges, next, round.edges);
        ClosedUnderFewer(c, edges0, round.edges, next);
        return Chosen(next, round.edges);
      }
      x, edges := next, round.edges;
    }
  }

  lemma LeastIs(c: Context, edges: set<Edge>, seeds: Closure, x: Closure, y: Closure)
    requires Least(c, edges, seeds, x) && Below(seeds, y) && Closed(c, edges, y)
    ensures Below(x, y)
  {
    hide Closed;
  }

  lemma SeedsLeast(c: Context, edges: set<Edge>, seeds: Closure)
    ensures Least(c, edges, seeds, Closure(seeds.selected + seeds.relevant * c.snapshots, seeds.relevant, seeds.series))
  {
    hide LinksClosed;
    hide DependenciesClosed;
    hide EdgesClosed;
    hide SeriesClosed;
  }

  lemma RoundRefuses(c: Context, edges0: set<Edge>, seeds: Closure, x: Closure, edges: set<Edge>)
    requires Least(c, edges0, seeds, x)
    requires
      var start := Extended(c, x, edges);
      Fails(c, Replayed(c, start, start.relevant), start.relevant)
    ensures forall y :: Below(seeds, y) && Closed(c, edges0, y) ==>
      y.relevant * c.broken != {} || y.selected * c.flagged != {}
  {
    hide Closed;
    hide Extended;
    hide Replayed;
    var start := Extended(c, x, edges);
    var p := Replayed(c, start, start.relevant);
    forall y | Below(seeds, y) && Closed(c, edges0, y)
      ensures y.relevant * c.broken != {} || y.selected * c.flagged != {}
    {
      StartBelow(c, edges0, x, edges, y);
      if start.relevant * c.broken != {} {
        var o :| o in start.relevant * c.broken;
        assert o in y.relevant * c.broken;
      } else {
        var o :| o in start.relevant * p.selected * c.flagged;
        assert o in y.selected * c.flagged;
      }
    }
  }

  lemma RoundLeast(c: Context, edges0: set<Edge>, seeds: Closure, x: Closure, edges: set<Edge>, next: Closure,
          more: set<Edge>)
    requires Given(c, edges0, seeds) && Least(c, edges0, seeds, x) && RoundOk(c, x, edges, next, more)
    requires edges0 <= edges <= edges0 + LedgerEdges(c, x.relevant)
    ensures Least(c, edges0, seeds, next) && edges0 <= more <= edges0 + LedgerEdges(c, next.relevant)
  {
    hide Everything;
    hide Closed;
    hide RoundOk;
    hide LedgerEdges;
    forall y | Below(seeds, y) && Closed(c, edges0, y) ensures Below(next, y) {
      RoundBelow(c, edges0, x, edges, next, more, y);
    }
    EverythingClosed(c, edges0, seeds);
    RoundBelow(c, edges0, x, edges, next, more, Everything(c, seeds));
  }

  lemma ClosedUnderFewer(c: Context, fewer: set<Edge>, more: set<Edge>, x: Closure)
    requires fewer <= more && Closed(c, more, x)
    ensures Closed(c, fewer, x)
  {
    hide LinksClosed;
    hide DependenciesClosed;
    hide SeriesClosed;
  }

  lemma RoundGrows(c: Context, x: Closure, edges: set<Edge>, next: Closure, more: set<Edge>)
    requires RoundOk(c, x, edges, next, more)
    ensures Below(x, next)
  {
    hide Linked;
    hide Required;
    hide LedgerEdges;
    hide EdgesClosed;
    hide SeriesOf;
    hide OwnersIn;
  }

  // ----- Linking the owners of a shared path -----

  /** Each owner of the path to one of them. */
  function AnchorLinks(owners: set<Owner>, anchor: Owner): set<Edge> {
    set o | o in owners && o != anchor :: Edge(o, anchor, "shared_context")
  }

  function PairLinks(owners: set<Owner>): set<Edge> {
    set o, p | o in owners && p in owners && o != p :: Edge(o, p, "shared_context")
  }

  lemma AnchorsLikePairs(owners: set<Owner>, anchor: Owner, selected: set<Owner>)
    requires anchor in owners
    ensures EdgesClosed(AnchorLinks(owners, anchor), selected) <==> EdgesClosed(PairLinks(owners), selected)
  {
    if EdgesClosed(AnchorLinks(owners, anchor), selected) {
      forall o | o in owners ensures o in selected <==> anchor in selected {
        if o != anchor { assert Edge(o, anchor, "shared_context") in AnchorLinks(owners, anchor); }
      }
    }
    if EdgesClosed(PairLinks(owners), selected) {
      forall o | o in owners && o != anchor ensures o in selected <==> anchor in selected {
        assert Edge(o, anchor, "shared_context") in PairLinks(owners);
      }
    }
  }

  function SharedPairs(byPath: map<Text, set<Owner>>): set<Edge> {
    set p, a, b | p in byPath && a in byPath[p] && b in byPath[p] && a != b :: Edge(a, b, "shared_context")
  }

  predicate Smallest(owners: set<Owner>, anchor: Owner) {
    anchor in owners && forall o :: o in owners && o != anchor ==> Less(anchor, o)
  }

  method MinOwner(owners: set<Owner>) returns (anchor: Owner)
    requires owners != {}
    ensures Smallest(owners, anchor)
  {
    hide Less;
    anchor :| anchor in owners;
    var done := {anchor};
    while owners - done != {}
      invariant done <= owners && Smallest(done, anchor)
      decreases owners - done
    {
      var o :| o in owners - done;
      LessTotal(o, anchor);
      if Less(o, anchor) {
        forall q | q in done && q != anchor ensures Less(o, q) { LessTransitive(o, anchor, q); }
        anchor := o;
      }
      done := done + {o};
    }
    Covered(done, owners);
  }

  /** A selection is closed under the anchor links exactly when it is under all pairs. */
  ghost predicate SameClosure(byPath: map<Text, set<Owner>>, done: set<Text>, links: set<Edge>) {
    forall selected :: EdgesClosed(links, selected) <==>
      forall p :: p in done && p in byPath ==> EdgesClosed(PairLinks(byPath[p]), selected)
  }

  /** Linking each shared path's owners to the smallest of them binds the same owners together
      as linking every two of them. */
  method LinkShared(byPath: map<Text, set<Owner>>) returns (links: set<Edge>)
    requires forall p :: p in byPath ==> byPath[p] != {}
    ensures links <= SharedPairs(byPath)
    ensures SameClosure(byPath, byPath.Keys, links)
  {
    hide PairLinks;
    hide AnchorLinks;
    hide EdgesClosed;
    hide SameClosure;
    hide SharedPairs;
    links := {};
    var done: set<Text> := {};
    NothingLinkedYet(byPath);
    while byPath.Keys - done != {}
      invariant done <= byPath.Keys && links <= SharedPairs(byPath) && SameClosure(byPath, done, links)
      decreases byPath.Keys - done
    {
      var p :| p in byPath.Keys - done;
      var owners := byPath[p];
      var anchor := MinOwner(owners);
      var more := AnchorLoop(owners, anchor);
      AnchorsShared(byPath, p, anchor);
      PathDone(byPath, done, links, p, anchor);
      links := links + more;
      done := done + {p};
    }
    Covered(done, byPath.Keys);
  }

  method AnchorLoop(owners: set<Owner>, anchor: Owner) returns (links: set<Edge>)
    ensures links == AnchorLinks(owners, anchor)
  {
    links := {};
    var rest := owners - {anchor};
    while rest != {}
      invariant rest <= owners - {anchor}
      invariant links == set o | o in owners && o != anchor && o !in rest :: Edge(o, anchor, "shared_context")
      decreases |rest|
    {
      var o :| o in rest;
      links := links + {Edge(o, anchor, "shared_context")};
      rest := rest - {o};
    }
  }

  lemma NothingLinkedYet(byPath: map<Text, set<Owner>>)
    ensures SameClosure(byPath, {}, {})
  {
  }

  lemma AnchorsShared(byPath: map<Text, set<Owner>>, p: Text, anchor: Owner)
    requires p in byPath && anchor in byPath[p]
    ensures AnchorLinks(byPath[p], anchor) <= SharedPairs(byPath)
  {
  }

  lemma PathDone(byPath: map<Text, set<Owner>>, done: set<Text>, links: set<Edge>, p: Text, anchor: Owner)
    requires SameClosure(byPath, done, links) && p in byPath && anchor in byPath[p]
    ensures SameClosure(byPath, done + {p}, links + AnchorLinks(byPath[p], anchor))
  {
    hide PairLinks;
    hide AnchorLinks;
    hide EdgesClosed;
    var more := AnchorLinks(byPath[p], anchor);
    forall selected
      ensures EdgesClosed(links + more, selected) <==>
              forall q :: q in done + {p} && q in byPath ==> EdgesClosed(PairLinks(byPath[q]), selected)
    {
      UnionClosed(links, more, selected);
      AnchorsLikePairs(byPath[p], anchor, selected);
    }
  }

  lemma UnionClosed(a: set<Edge>, b: set<Edge>, selected: set<Owner>)
    ensures EdgesClosed(a + b, selected) <==> EdgesClosed(a, selected) && EdgesClosed(b, selected)
  {
  }

  lemma PairsClosed(byPath: map<Text, set<Owner>>, selected: set<Owner>)
    ensures EdgesClosed(SharedPairs(byPath), selected) <==>
            forall p :: p in byPath ==> EdgesClosed(PairLinks(byPath[p]), selected)
  {
    if forall p :: p in byPath ==> EdgesClosed(PairLinks(byPath[p]), selected) {
      forall e | e in SharedPairs(byPath) ensures e.owner in selected <==> e.target in selected {
        var p :| p in byPath && e.owner in byPath[p] && e.target in byPath[p];
        assert e in PairLinks(byPath[p]);
      }
    }
    if EdgesClosed(SharedPairs(byPath), selected) {
      forall p, e | p in byPath && e in PairLinks(byPath[p]) ensures e.owner in selected <==> e.target in selected {
        assert e in SharedPairs(byPath);
      }
    }
  }

  /** Anchor links therefore select exactly what all pairs would: the least closures agree. */
  lemma AnchorsSelectTheSame(c: Context, edges: set<Edge>, byPath: map<Text, set<Owner>>, links: set<Edge>,
          seeds: Closure, x: Closure)
    requires SameClosure(byPath, byPath.Keys, links)
    ensures Closed(c, edges + links, x) <==> Closed(c, edges + SharedPairs(byPath), x)
    ensures Least(c, edges + links, seeds, x) <==> Least(c, edges + SharedPairs(byPath), seeds, x)
  {
    hide SameClosure;
    hide SharedPairs;
    hide Below;
    hide Closed;
    forall y ensures Closed(c, edges + links, y) <==> Closed(c, edges + SharedPairs(byPath), y) {
      SameWhenClosed(c, edges, byPath, links, y);
    }
  }

  lemma SameWhenClosed(c: Context, edges: set<Edge>, byPath: map<Text, set<Owner>>, links: set<Edge>, y: Closure)
    requires SameClosure(byPath, byPath.Keys, links)
    ensures Closed(c, edges + links, y) <==> Closed(c, edges + SharedPairs(byPath), y)
  {
    hide SharedPairs;
    hide EdgesClosed;
    hide PairLinks;
    hide LinksClosed;
    hide DependenciesClosed;
    hide SeriesClosed;
    UnionClosed(edges, links, y.selected);
    UnionClosed(edges, SharedPairs(byPath), y.selected);
    PairsClosed(byPath, y.selected);
  }
}

/** The selection as reachability: what is chosen is exactly what a path of single steps over the
    recorded relations leads to from a seed. */
module SelectionReach {
  import opened Selection
  import opened Text

  /** An owner that is selected, an owner whose history is relevant, or a series. */
  datatype Item = Live(owner: Owner) | Past(owner: Owner) | InSeries(id: int)

  predicate Holds(x: Closure, a: Item) {
    match a
    case Live(o) => o in x.selected
    case Past(o) => o in x.relevant
    case InSeries(i) => i in x.series
  }

  /** A row of the ledger links the owner it is filed under and all it names. */
  predicate InRow(c: Context, row: Owner, o: Owner) { row in c.links && (o == row || o in c.links[row]) }

  /** What each relation leads to, read off the tables. */
  ghost predicate LeadsTo(c: Context, edges: set<Edge>, a: Item, b: Item) {
    match (a, b)
    case (Live(o), Past(p)) => o == p
    case (Past(o), Live(p)) => o == p && o in c.snapshots
    case (Past(o), Past(p)) =>
      (exists row :: InRow(c, row, o) && InRow(c, row, p)) || (o in c.dependencies && p in c.dependencies[o])
    case (Live(o), Live(p)) =>
      exists e :: e in edges && ((e.owner == o && e.target == p) || (e.owner == p && e.target == o))
    case (Live(o), InSeries(i)) => o in c.series && i in c.series[o]
    case (InSeries(i), Live(p)) => p in c.rootSeries && c.rootSeries[p] == Some(i)
    case _ => false
  }

  ghost predicate Walk(c: Context, edges: set<Edge>, p: seq<Item>) {
    p != [] && forall k :: 0 < k < |p| ==> LeadsTo(c, edges, p[k - 1], p[k])
  }

  ghost predicate Reached(c: Context, edges: set<Edge>, seeds: Closure, a: Item) {
    exists p :: Walk(c, edges, p) && Holds(seeds, p[0]) && p[|p| - 1] == a
  }

  /** No step leads out. */
  ghost predicate NoWayOut(c: Context, edges: set<Edge>, x: Closure) {
    forall a, b :: Holds(x, a) && LeadsTo(c, edges, a, b) ==> Holds(x, b)
  }

  lemma ClosedNoWayOut(c: Context, edges: set<Edge>, x: Closure, a: Item, b: Item)
    requires Closed(c, edges, x) && Holds(x, a) && LeadsTo(c, edges, a, b)
    ensures Holds(x, b)
  {
    match (a, b)
    case (Live(o), Past(p)) =>
    case (Past(o), Live(p)) => assert o in x.relevant * c.snapshots;
    case (Past(o), Past(p)) =>
      if row :| InRow(c, row, o) && InRow(c, row, p) {
        assert row in x.relevant || o in c.links[row] * x.relevant;
      } else {
        assert c.Dependencies(o) <= x.relevant;
      }
    case (Live(o), Live(p)) =>
    case (Live(o), InSeries(i)) => assert c.Series(o) <= x.series;
    case (InSeries(i), Live(p)) => assert c.InSeries(p, x.series);
  }

  lemma NoWayOutSteps(c: Context, edges: set<Edge>, x: Closure, a: Item, b: Item)
    requires NoWayOut(c, edges, x) && Holds(x, a) && LeadsTo(c, edges, a, b)
    ensures Holds(x, b)
  {
  }

  lemma NoWayOutLinks(c: Context, edges: set<Edge>, x: Closure)
    requires NoWayOut(c, edges, x)
    ensures LinksClosed(c, x.relevant) && DependenciesClosed(c, x.relevant)
  {
    hide NoWayOut;
    forall o | o in c.links && (o in x.relevant || c.links[o] * x.relevant != {})
      ensures o in x.relevant && c.links[o] <= x.relevant
    {
      var from :| from in x.relevant && InRow(c, o, from)
        by { if o !in x.relevant { var q :| q in c.links[o] * x.relevant; assert InRow(c, o, q); }
             else { assert InRow(c, o, o); } }
      forall p | p == o || p in c.links[o] ensures p in x.relevant {
        assert InRow(c, o, p);
        NoWayOutSteps(c, edges, x, Past(from), Past(p));
      }
    }
    forall o, p | o in x.relevant && p in c.Dependencies(o) ensures p in x.relevant {
      NoWayOutSteps(c, edges, x, Past(o), Past(p));
    }
  }

  lemma NoWayOutCloses(c: Context, edges: set<Edge>, x: Closure)
    requires NoWayOut(c, edges, x)
    ensures Closed(c, edges, x)
  {
    hide NoWayOut;
    NoWayOutLinks(c, edges, x);
    hide LinksClosed;
    hide DependenciesClosed;
    forall o | o in x.selected ensures o in x.relevant { NoWayOutSteps(c, edges, x, Live(o), Past(o)); }
    forall o | o in x.relevant * c.snapshots ensures o in x.selected {
      NoWayOutSteps(c, edges, x, Past(o), Live(o));
    }
    forall e | e in edges ensures e.owner in x.selected <==> e.target in x.selected {
      if e.owner in x.selected { NoWayOutSteps(c, edges, x, Live(e.owner), Live(e.target)); }
      if e.target in x.selected { NoWayOutSteps(c, edges, x, Live(e.target), Live(e.owner)); }
    }
    forall o, i | o in x.selected && i in c.Series(o) ensures i in x.series {
      NoWayOutSteps(c, edges, x, Live(o), InSeries(i));
    }
    forall o | o in c.rootSeries && c.InSeries(o, x.series) ensures o in x.selected {
      NoWayOutSteps(c, edges, x, InSeries(c.rootSeries[o].value), Live(o));
    }
  }

  /** Being closed under links, dependencies, edges and series is having no step that leads out. */
  lemma ClosedExactly(c: Context, edges: set<Edge>, x: Closure)
    ensures Closed(c, edges, x) <==> NoWayOut(c, edges, x)
  {
    if Closed(c, edges, x) {
      forall a, b | Holds(x, a) && LeadsTo(c, edges, a, b) ensures Holds(x, b) { ClosedNoWayOut(c, edges, x, a, b); }
    }
    if NoWayOut(c, edges, x) { NoWayOutCloses(c, edges, x); }
  }

  lemma {:induction false} WalkStays(c: Context, edges: set<Edge>, x: Closure, p: seq<Item>, k: nat)
    requires NoWayOut(c, edges, x) && Walk(c, edges, p) && Holds(x, p[0]) && k < |p|
    ensures Holds(x, p[k])
  {
    hide LeadsTo;
    hide Holds;
    if k > 0 {
      WalkStays(c, edges, x, p, k - 1);
      NoWayOutSteps(c, edges, x, p[k - 1], p[k]);
    }
  }

  lemma ReachesOn(c: Context, edges: set<Edge>, seeds: Closure, a: Item, b: Item)
    requires Reached(c, edges, seeds, a) && LeadsTo(c, edges, a, b)
    ensures Reached(c, edges, seeds, b)
  {
    hide LeadsTo;
    hide Holds;
    var p :| Walk(c, edges, p) && Holds(seeds, p[0]) && p[|p| - 1] == a;
    var q := p + [b];
    assert q[0] == p[0] && Walk(c, edges, q);
  }

  /** The part of a closure that is reached from the seeds. */
  ghost function ReachedPart(c: Context, edges: set<Edge>, seeds: Closure, x: Closure): Closure {
    Closure(set o | o in x.selected && Reached(c, edges, seeds, Live(o)),
            set o | o in x.relevant && Reached(c, edges, seeds, Past(o)),
            set i | i in x.series && Reached(c, edges, seeds, InSeries(i)))
  }

  lemma PartHolds(c: Context, edges: set<Edge>, seeds: Closure, x: Closure, a: Item)
    ensures Holds(ReachedPart(c, edges, seeds, x), a) <==> Holds(x, a) && Reached(c, edges, seeds, a)
  {
    hide Reached;
  }

  lemma SeedReached(c: Context, edges: set<Edge>, seeds: Closure, a: Item)
    requires Holds(seeds, a)
    ensures Reached(c, edges, seeds, a)
  {
    assert Walk(c, edges, [a]);
  }

  /** The reached part of a closed set that holds the seeds is closed and holds the seeds too. */
  lemma PartCloses(c: Context, edges: set<Edge>, seeds: Closure, x: Closure)
    requires Below(seeds, x) && Closed(c, edges, x)
    ensures Below(seeds, ReachedPart(c, edges, seeds, x)) && Closed(c, edges, ReachedPart(c, edges, seeds, x))
  {
    hide Reached;
    hide LeadsTo;
    hide Closed;
    var part := ReachedPart(c, edges, seeds, x);
    forall a, b | Holds(part, a) && LeadsTo(c, edges, a, b) ensures Holds(part, b) {
      PartHolds(c, edges, seeds, x, a);
      PartHolds(c, edges, seeds, x, b);
      ReachesOn(c, edges, seeds, a, b);
      ClosedExactly(c, edges, x);
      NoWayOutSteps(c, edges, x, a, b);
    }
    ClosedExactly(c, edges, part);
    forall o | o in seeds.selected ensures o in part.selected { SeedReached(c, edges, seeds, Live(o)); }
    forall o | o in seeds.relevant ensures o in part.relevant { SeedReached(c, edges, seeds, Past(o)); }
    forall i | i in seeds.series ensures i in part.series { SeedReached(c, edges, seeds, InSeries(i)); }
  }

  /** Main theorem of the selection: the least closed set that holds the seeds is what the seeds
      reach, step by step over the tables. */
  lemma LeastIsReached(c: Context, edges: set<Edge>, seeds: Closure, x: Closure)
    requires Below(seeds, x) && Closed(c, edges, x) && Least(c, edges, seeds, x)
    ensures forall a :: Holds(x, a) <==> Reached(c, edges, seeds, a)
  {
    hide Reached;
    hide Closed;
    var part := ReachedPart(c, edges, seeds, x);
    PartCloses(c, edges, seeds, x);
    assert Below(x, part);
    forall a ensures Holds(x, a) <==> Reached(c, edges, seeds, a) {
      PartHolds(c, edges, seeds, x, a);
      if Reached(c, edges, seeds, a) { ReachedHolds(c, edges, seeds, x, a); }
    }
  }

  lemma ReachedHolds(c: Context, edges: set<Edge>, seeds: Closure, x: Closure, a: Item)
    requires Below(seeds, x) && Closed(c, edges, x) && Reached(c, edges, seeds, a)
    ensures Holds(x, a)
  {
    hide LeadsTo;
    hide Closed;
    var p :| Walk(c, edges, p) && Holds(seeds, p[0]) && p[|p| - 1] == a;
    ClosedExactly(c, edges, x);
    assert Holds(x, p[0]);
    WalkStays(c, edges, x, p, |p| - 1);
  }

  /** A refusal means that the seeds reach a history that does not replay, or a live owner whose
      recovery flag is wrong. */
  lemma RefusalReached(c: Context, edges: set<Edge>, seeds: Closure)
    requires Given(c, edges, seeds)
    requires forall y :: Below(seeds, y) && Closed(c, edges, y) ==>
      y.relevant * c.broken != {} || y.selected * c.flagged != {}
    ensures exists o ::
      || (o in c.broken && Reached(c, edges, seeds, Past(o)))
      || (o in c.flagged && Reached(c, edges, seeds, Live(o)))
  {
    hide Reached;
    hide Closed;
    hide Everything;
    EverythingClosed(c, edges, seeds);
    var top := Everything(c, seeds);
    var part := ReachedPart(c, edges, seeds, top);
    PartCloses(c, edges, seeds, top);
    if part.relevant * c.broken != {} {
      var o :| o in part.relevant * c.broken;
      PartHolds(c, edges, seeds, top, Past(o));
    } else {
      var o :| o in part.selected * c.flagged;
      PartHolds(c, edges, seeds, top, Live(o));
    }
  }

  /** The edges a selection adds join two live owners, the first with a history that names the other. */
  lemma LedgerEdgesMean(c: Context, owners: set<Owner>, e: Edge)
    ensures e in LedgerEdges(c, owners) <==>
      && e.owner in owners && e.owner in c.snapshots && e.target in c.snapshots && e.owner != e.target
      && e.owner in c.dependencies && e.target in c.dependencies[e.owner] && e.reason == "identity_ledger"
  {
  }
}

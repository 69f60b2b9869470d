/** What the copy protocol guarantees in every run. */
module CopyGuarantees {
  import opened CopyProtocol
  import opened CopySteps
  import opened Text

  // ----- What the protocol guarantees -----

  /** A file that some name still leads to, whose bytes have not been verified and synced, is
      guarded by the pending marker of the attempt that made it. */
  lemma PendingWhileUnproven(s: State, actions: seq<Action>, a: nat)
    requires Initial(s)
    ensures
      var end := Run(s, actions);
      a in end.attempts ==>
        var t := end.attempts[a];
        t.output.Some? && !Gone(end.disk.links, t.output.value) && !Proven(end.disk, t.output, t.claimed, t.read) ==>
          t.token.Some? && Public(Intent) in end.disk.links && end.disk.links[Public(Intent)] == t.token.value
  {
    hide Initial;
    hide DiskOk;
    hide Gone;
    hide Proven;
    hide Run;
    InitialSound(s);
    RunKeeps(s, actions);
    var end := Run(s, actions);
    assert a in end.attempts ==> AttemptOk(end.disk, a, end.attempts[a]);
  }

  /** Between creating its marker and capturing it again, an attempt is alone. */
  lemma OneHolder(s: State, actions: seq<Action>, a: nat, b: nat)
    requires Initial(s)
    ensures
      var end := Run(s, actions);
      a in end.attempts && b in end.attempts ==>
        (Holding(end.attempts[a].stage) && Holding(end.attempts[b].stage) ==> a == b)
  {
    hide Initial;
    hide DiskOk;
    hide Gone;
    hide Proven;
    hide Run;
    InitialSound(s);
    RunKeeps(s, actions);
    var end := Run(s, actions);
    assert a in end.attempts ==> AttemptOk(end.disk, a, end.attempts[a]);
    assert b in end.attempts ==> AttemptOk(end.disk, b, end.attempts[b]);
  }

  /** Nobody but the attempt itself moves its marker while it holds it: a refused attempt never
      retires the marker of the one that refused it. */
  lemma OthersLeaveMarker(s: State, action: Action, a: nat)
    requires Sound(s) && a in s.attempts && Holding(s.attempts[a].stage)
    requires Outside(action) || action.attempt != a
    ensures
      var next := Step(s, action).disk.links;
      && Public(Intent) in next && next[Public(Intent)] == s.disk.links[Public(Intent)]
      && s.attempts[a].token == Some(next[Public(Intent)])
  {
    hide DiskOk;
    hide Spares;
    hide Gone;
    hide Proven;
    hide Act;
    hide DoCrash;
    hide Interfere;
    assert AttemptOk(s.disk, a, s.attempts[a]);
    if Outside(action) {
      OutsiderSpares(s, action);
      assert MarkerStays(s.disk, Interfere(s, action).disk, a + 1);
    } else if !action.Begin? && action.attempt in s.attempts && s.attempts[action.attempt].alive {
      ActorOnly(s, action);
    }
  }

  /** An attempt that ends well has taken its own marker away, and the file it leaves, if some
      name still leads to it, is verified and synced. */
  lemma ReturnedMeans(s: State, actions: seq<Action>, a: nat)
    requires Initial(s)
    ensures
      var end := Run(s, actions);
      a in end.attempts && end.attempts[a].stage == Finished(true) ==>
        var t := end.attempts[a];
        && t.token.Some? && Gone(end.disk.links, t.token.value)
        && (t.output.Some? && !Gone(end.disk.links, t.output.value) ==>
              && t.output.value in end.disk.durable && |t.read| == t.claimed
              && (t.claimed <= 4_294_967_296 ==> Content(end.disk, t.output.value) == t.read))
  {
    hide Initial;
    hide DiskOk;
    hide Gone;
    hide Run;
    InitialSound(s);
    RunKeeps(s, actions);
    var end := Run(s, actions);
    assert a in end.attempts ==> AttemptOk(end.disk, a, end.attempts[a]);
  }

  /** The attempt crashed, or gave up, with its marker in place. */
  predicate Stuck(t: Attempt) { Holding(t.stage) && (t.alive ==> t.stage.Retained?) }

  /** Such a marker is there for good, whatever anyone does: the destination stays blocked. */
  lemma {:induction false} StuckForever(s: State, actions: seq<Action>, a: nat)
    requires Sound(s) && a in s.attempts && Stuck(s.attempts[a])
    ensures
      var end := Run(s, actions);
      && a in end.attempts && end.attempts[a].token == s.attempts[a].token && s.attempts[a].token.Some?
      && Public(Intent) in end.disk.links && end.disk.links[Public(Intent)] == s.attempts[a].token.value
    decreases |actions|
  {
    hide DiskOk;
    hide Gone;
    hide Proven;
    hide Step;
    if actions == [] {
      assert AttemptOk(s.disk, a, s.attempts[a]);
    } else {
      StepKeeps(s, actions[0]);
      StuckStays(s, actions[0], a);
      StuckForever(Step(s, actions[0]), actions[1..], a);
    }
  }

  lemma StuckStays(s: State, action: Action, a: nat)
    requires Sound(s) && a in s.attempts && Stuck(s.attempts[a])
    ensures
      var next := Step(s, action);
      a in next.attempts && Stuck(next.attempts[a]) && next.attempts[a].token == s.attempts[a].token
  {
    hide DiskOk;
    hide AttemptOk;
    hide SparesOthers;
    hide DiskOk;
    hide Interfere;
    if Outside(action) {
      OutsiderSpares(s, action);
    } else if !action.Begin? && action.attempt in s.attempts && s.attempts[action.attempt].alive
              && action.attempt != a {
      ActorOnly(s, action);
    }
  }

  lemma ActorOnly(s: State, action: Action)
    requires Sound(s) && !Outside(action) && !action.Begin?
    requires action.attempt in s.attempts && s.attempts[action.attempt].alive
    ensures
      var next := Step(s, action);
      next == s || Advances(s, next, action.attempt)
  {
    hide DiskOk;
    hide AttemptOk;
    hide Act;
    hide DoCrash;
    hide Advances;
    if action.Crash? { CrashOk(s, action.attempt); } else { ActAdvances(s, action.attempt, action); }
  }

  /** The entry left its name for a carrier of attempt `a` whose receipt records that name. */
  predicate InCarrier(d: Disk, a: nat, name: Name, i: Inode) {
    exists c: nat :: c in d.carriers && d.carriers[c] == Carrier(a, name, true) && Artifact(c) in d.links
      && d.links[Artifact(c)] == i
  }

  /** The entry went back from a carrier to the name it came from, which was free. */
  predicate BackHome(d: Disk, e: Disk, a: nat, c: nat, i: Inode) {
    && c in d.carriers && d.carriers[c].owner == a
    && Public(d.carriers[c].origin) !in d.links
    && Public(d.carriers[c].origin) in e.links && e.links[Public(d.carriers[c].origin)] == i
  }

  /** What a step of attempt `a` may do to the entry at `p`: leave it, capture it with a
      receipt, put it back, or unlink it if it is the attempt's own and still held. */
  predicate Traced(d: Disk, e: Disk, a: nat, own: set<Inode>, p: Place)
    requires p in d.links
  {
    || (p in e.links && e.links[p] == d.links[p])
    || (p.Public? && InCarrier(e, a, p.name, d.links[p]))
    || (p.Artifact? && BackHome(d, e, a, p.carrier, d.links[p]))
    || (d.links[p] in own && d.links[p] in d.open && Gone(e.links, d.links[p]))
  }

  lemma DecideTraces(s: State, a: nat, c: nat, ok: bool, synced: bool, p: Place)
    requires Ready(s, a) && Removing(s.attempts[a].stage) && s.attempts[a].stage.phase == Captured(c)
      && p in s.disk.links
    ensures Traced(s.disk, DoDecide(s, a, c, ok, synced).disk, a, Own(s.attempts[a]), p)
  {
    hide DiskOk;
    hide Gone;
    hide AttemptOk;
    hide InCarrier;
    hide BackHome;
    var i, e := Expected(s.attempts[a]), DoDecide(s, a, c, ok, synced).disk;
    if p !in e.links {
      SameNumber(s.disk, Artifact(c), i.value);
      GoneAfter(s.disk, Artifact(c));
    }
  }

  lemma GoneAfter(d: Disk, p: Place)
    requires DiskOk(d) && p in d.links
    ensures Gone(d.links - {p}, d.links[p])
  {
    hide Receipted;
    TidyMeans(d.links, d.open);
  }

  lemma CaptureTraces(s: State, a: nat, c: nat, ok: bool, p: Place)
    requires Ready(s, a) && Removing(s.attempts[a].stage) && s.attempts[a].stage.phase == Prepared(c)
      && p in s.disk.links
    ensures Traced(s.disk, DoCapture(s, a, c, ok).disk, a, Own(s.attempts[a]), p)
  {
    hide DiskOk;
    hide Gone;
    hide BackHome;
    hide Proven;
    var e, entry := DoCapture(s, a, c, ok).disk, Public(Target(s.attempts[a].stage));
    if ok && p == entry {
      assert e.carriers[c] == Carrier(a, Target(s.attempts[a].stage), true) && e.links[Artifact(c)] == s.disk.links[p];
    }
  }

  lemma RestoreTraces(s: State, a: nat, c: nat, ok: bool, p: Place)
    requires Ready(s, a) && Removing(s.attempts[a].stage) && s.attempts[a].stage.phase == Restoring(c)
      && p in s.disk.links
    ensures Traced(s.disk, DoRestore(s, a, c, ok).disk, a, Own(s.attempts[a]), p)
  {
    hide DiskOk;
    hide Gone;
    hide InCarrier;
    hide Proven;
  }

  /** At every step an attempt permanently unlinks only an inode it made and still holds; any
      other entry stays, or is in a carrier with its receipt, or is back under its old name. */
  lemma StepTraces(s: State, action: Action, p: Place)
    requires Sound(s) && !Outside(action) && p in s.disk.links && action.attempt in s.attempts
    ensures Traced(s.disk, Step(s, action).disk, action.attempt, Own(s.attempts[action.attempt]), p)
  {
    hide DiskOk;
    hide Gone;
    hide AttemptOk;
    hide InCarrier;
    hide BackHome;
    hide NumberFree;
    hide Leads;
    hide DoDecide;
    hide DoCapture;
    hide DoRestore;
    var a := action.attempt;
    if Removing(s.attempts[a].stage) && s.attempts[a].alive {
      var phase := s.attempts[a].stage.phase;
      if action.Decide? && phase.Captured? { DecideTraces(s, a, phase.carrier, action.ok, action.synced, p); }
      if action.Capture? && phase.Prepared? { CaptureTraces(s, a, phase.carrier, action.ok, p); }
      if action.Restore? && phase.Restoring? { RestoreTraces(s, a, phase.carrier, action.ok, p); }
    }
  }

  /** Outsiders themselves never remove this inode's name during the run. */
  predicate LeftAlone(s: State, actions: seq<Action>, i: Inode)
    decreases |actions|
  {
    actions == [] ||
    var next := Step(s, actions[0]);
    (Outside(actions[0]) && !Gone(s.disk.links, i) ==> !Gone(next.disk.links, i)) && LeftAlone(next, actions[1..], i)
  }

  /** The attempts lose nothing of anyone else's: such a file keeps its one name, or is in a
      carrier with its receipt, however many attempts fail or crash. */
  lemma {:induction false} ForeignSurvives(s: State, actions: seq<Action>, i: Inode)
    requires Sound(s) && i.maker == Someone && !Gone(s.disk.links, i) && LeftAlone(s, actions, i)
    ensures
      var end := Run(s, actions).disk;
      exists p :: p in end.links && end.links[p] == i
        && (p.Artifact? ==> p.carrier in end.carriers && end.carriers[p.carrier].receipt)
    decreases |actions|
  {
    hide Tidy;
    hide AttemptOk;
    hide Step;
    if actions == [] {
      var p :| p in s.disk.links && s.disk.links[p] == i;
    } else {
      StepKeeps(s, actions[0]);
      if !Outside(actions[0]) { StepKeepsForeign(s, actions[0], i); }
      ForeignSurvives(Step(s, actions[0]), actions[1..], i);
    }
  }

  lemma StepKeepsForeign(s: State, action: Action, i: Inode)
    requires Sound(s) && i.maker == Someone && !Gone(s.disk.links, i) && !Outside(action)
    ensures !Gone(Step(s, action).disk.links, i)
  {
    hide DiskOk;
    hide Act;
    hide DoCrash;
    hide Proven;
    var a := action.attempt;
    if a in s.attempts {
      var p :| p in s.disk.links && s.disk.links[p] == i;
      assert AttemptOk(s.disk, a, s.attempts[a]);
      StepTraces(s, action, p);
    }
  }
}

/** How taking an entry away ends, whichever of its operations fail: exactly when the entry is gone,
    when it is back under its name, and when it is kept in the private carrier. */
module CopyRemoval {
  import opened CopyProtocol
  import opened CopySteps
  import opened Text

  /** Which operations of a removal succeed. */
  datatype Luck = Luck(prepared: bool, captured: bool, decided: bool, synced: bool, restored: bool, cleaned: bool)

  /** The removal in its order. A step that is not due is no step, so the same script serves
      whether the entry is unlinked, put back or never captured. */
  function Script(a: nat, c: nat, k: Luck): seq<Action> {
    [Prepare(a, c, k.prepared), Capture(a, k.captured), Decide(a, k.decided, k.synced), Restore(a, k.restored),
     Clean(a, k.cleaned)]
  }

  /** A rollback or a retirement about to begin, with an unused private carrier. */
  ghost predicate Starts(s: State, a: nat, c: nat) {
    && Sound(s) && a in s.attempts && s.attempts[a].alive
    && (s.attempts[a].stage == Rollback(Preparing) || s.attempts[a].stage == Retiring(Preparing))
    && c !in s.disk.carriers && Artifact(c) !in s.disk.links
  }

  predicate IsRollback(s: State, a: nat)
    requires a in s.attempts
  {
    s.attempts[a].stage.Rollback?
  }

  /** The name the entry is taken from, and the inode the attempt expects to find there. */
  function Home(s: State, a: nat): Name
    requires a in s.attempts
  {
    if IsRollback(s, a) then Destination else Intent
  }

  function Mine(s: State, a: nat): Option<Inode>
    requires a in s.attempts
  {
    if IsRollback(s, a) then s.attempts[a].output else s.attempts[a].token
  }

  predicate Enclosed(s: State, a: nat, k: Luck)
    requires a in s.attempts
  {
    k.prepared && Mine(s, a).Some? && Mine(s, a).value in s.disk.open
  }

  /** The entry was moved into the carrier, whatever it is. */
  predicate Taken(s: State, a: nat, k: Luck)
    requires a in s.attempts
  {
    Enclosed(s, a, k) && k.captured && Public(Home(s, a)) in s.disk.links
  }

  /** It is the very inode the attempt made and holds, and was unlinked for good. */
  predicate Unlinked(s: State, a: nat, k: Luck)
    requires a in s.attempts
  {
    Taken(s, a, k) && k.decided && s.disk.links[Public(Home(s, a))] == Mine(s, a).value
  }

  predicate Kept(s: State, a: nat, k: Luck)
    requires a in s.attempts
  {
    Taken(s, a, k) && !Unlinked(s, a, k) && !k.restored
  }

  predicate Done(s: State, a: nat, k: Luck)
    requires a in s.attempts
  {
    Unlinked(s, a, k) && k.synced && k.cleaned
  }

  // ----- Exactly what remains -----

  function LinksAfter(s: State, a: nat, c: nat, k: Luck): map<Place, Inode>
    requires a in s.attempts
  {
    var home := Public(Home(s, a));
    if Unlinked(s, a, k) then s.disk.links - {home}
    else if Kept(s, a, k) then (s.disk.links - {home})[Artifact(c) := s.disk.links[home]]
    else s.disk.links
  }

  /** The receipt outlives the removal only where the carrier holds the entry or cannot be cleaned. */
  function CarriersAfter(s: State, a: nat, c: nat, k: Luck): map<nat, Carrier>
    requires a in s.attempts
  {
    if Enclosed(s, a, k) then s.disk.carriers[c := Carrier(a, Home(s, a), Kept(s, a, k) || !k.cleaned)]
    else s.disk.carriers
  }

  function OpenAfter(s: State, a: nat, k: Luck): set<Inode>
    requires a in s.attempts
  {
    var t := s.attempts[a];
    var closed := if Unlinked(s, a, k) then {Mine(s, a).value} else {};
    if IsRollback(s, a) && !Done(s, a, k) then
      s.disk.open - closed - (if t.token.Some? then {t.token.value} else {})
        - (if t.output.Some? then {t.output.value} else {})
    else s.disk.open - closed
  }

  function StageAfter(s: State, a: nat, k: Luck): Stage
    requires a in s.attempts
  {
    if IsRollback(s, a) then (if Done(s, a, k) then Retiring(Preparing) else Retained)
    else if Done(s, a, k) then Sealing
    else Repairing
  }

  function RemovalEnd(s: State, a: nat, c: nat, k: Luck): State
    requires a in s.attempts
  {
    State(Disk(LinksAfter(s, a, c, k), OpenAfter(s, a, k), CarriersAfter(s, a, c, k), s.disk.content, s.disk.durable),
          s.attempts[a := s.attempts[a].(stage := StageAfter(s, a, k))])
  }

  // ----- Step by step -----

  lemma RunFive(s: State, x: seq<Action>)
    requires |x| == 5
    ensures Run(s, x) == Step(Step(Step(Step(Step(s, x[0]), x[1]), x[2]), x[3]), x[4])
  {
    hide Step;
    assert Run(s, x) == Run(Step(s, x[0]), x[1..]);
    assert Run(Step(s, x[0]), x[1..]) == Run(Step(Step(s, x[0]), x[1]), x[2..]);
    var s2 := Step(Step(s, x[0]), x[1]);
    assert Run(s2, x[2..]) == Run(Step(s2, x[2]), x[3..]);
    assert Run(Step(s2, x[2]), x[3..]) == Run(Step(Step(s2, x[2]), x[3]), x[4..]);
    var s4 := Step(Step(s2, x[2]), x[3]);
    assert Run(s4, x[4..]) == Run(Step(s4, x[4]), x[5..]);
  }

  /** The same attempt on another disk and in another stage. */
  function Now(s: State, a: nat, d: Disk, stage: Stage): State
    requires a in s.attempts
  {
    State(d, s.attempts[a := s.attempts[a].(stage := stage)])
  }

  predicate Over(stage: Stage) { stage.Retained? || stage.Repairing? }

  predicate ByRemoval(action: Action) {
    action.Capture? || action.Decide? || action.Restore? || action.Clean?
  }

  /** What is not due is no step: after the removal, or in another phase of it. */
  lemma NotDue(s: State, a: nat, action: Action)
    requires a in s.attempts && s.attempts[a].alive && ByRemoval(action) && action.attempt == a
    requires
      var stage := s.attempts[a].stage;
      || Over(stage)
      || (Removing(stage) && (stage.phase.Cleaning? || stage.phase.Restoring?) && (action.Capture? || action.Decide?))
      || (Removing(stage) && stage.phase.Cleaning? && action.Restore?)
      || (Removing(stage) && stage.phase.Preparing?)
    ensures Step(s, action) == s
  {
    hide DoCreateMarker;
    hide DoRetain;
  }

  // The disk with the carrier, with the entry in it, and with the entry unlinked.

  function CarrierDisk(s: State, a: nat, c: nat): Disk
    requires a in s.attempts
  {
    s.disk.(carriers := s.disk.carriers[c := Carrier(a, Home(s, a), true)])
  }

  function TakenDisk(s: State, a: nat, c: nat): Disk
    requires a in s.attempts && Public(Home(s, a)) in s.disk.links
  {
    var home := Public(Home(s, a));
    CarrierDisk(s, a, c).(links := (s.disk.links - {home})[Artifact(c) := s.disk.links[home]])
  }

  function UnlinkedDisk(s: State, a: nat, c: nat): Disk
    requires a in s.attempts && Mine(s, a).Some?
  {
    CarrierDisk(s, a, c).(links := s.disk.links - {Public(Home(s, a))}, open := s.disk.open - {Mine(s, a).value})
  }

  /** The attempt in a phase of its removal. */
  function In(s: State, a: nat, d: Disk, phase: Phase): State
    requires a in s.attempts
  {
    Now(s, a, d, if IsRollback(s, a) then Rollback(phase) else Retiring(phase))
  }

  lemma PrepareStep(s: State, a: nat, c: nat, k: Luck)
    requires Starts(s, a, c)
    ensures Step(s, Script(a, c, k)[0]) ==
      if Enclosed(s, a, k) then In(s, a, CarrierDisk(s, a, c), Prepared(c)) else RemovalEnd(s, a, c, k)
  {
    hide DoCapture;
    hide DoDecide;
    hide DoRestore;
    hide DoClean;
    hide Sound;
    hide NumberFree;
    hide ActCopy;
    hide ActIntent;
    var next := Step(s, Script(a, c, k)[0]);
    if !Enclosed(s, a, k) {
      assert next.disk.open == OpenAfter(s, a, k);
      assert next.attempts == RemovalEnd(s, a, c, k).attempts;
    }
  }

  lemma CaptureStep(s: State, a: nat, c: nat, k: Luck)
    requires Starts(s, a, c) && Enclosed(s, a, k)
    ensures Step(In(s, a, CarrierDisk(s, a, c), Prepared(c)), Script(a, c, k)[1]) ==
      if Taken(s, a, k) then In(s, a, TakenDisk(s, a, c), Captured(c))
      else In(s, a, CarrierDisk(s, a, c), Cleaning(c, false))
  {
    hide DoPrepare;
    hide DoDecide;
    hide DoRestore;
    hide DoClean;
    hide Sound;
    hide ActCopy;
    hide ActIntent;
  }

  lemma DecideStep(s: State, a: nat, c: nat, k: Luck)
    requires Starts(s, a, c) && Taken(s, a, k)
    ensures Step(In(s, a, TakenDisk(s, a, c), Captured(c)), Script(a, c, k)[2]) ==
      if Unlinked(s, a, k) then In(s, a, UnlinkedDisk(s, a, c), Cleaning(c, k.synced))
      else In(s, a, TakenDisk(s, a, c), Restoring(c))
  {
    hide DoPrepare;
    hide DoCapture;
    hide DoRestore;
    hide DoClean;
    hide AttemptOk;
    hide Receipted;
    hide ActCopy;
    hide ActIntent;
    var home := Public(Home(s, a));
    TidyMeans(s.disk.links, s.disk.open);
    hide Tidy;
    assert TakenDisk(s, a, c).links - {Artifact(c)} == s.disk.links - {home};
  }

  lemma RestoreStep(s: State, a: nat, c: nat, k: Luck)
    requires Starts(s, a, c) && Taken(s, a, k) && !Unlinked(s, a, k)
    ensures Step(In(s, a, TakenDisk(s, a, c), Restoring(c)), Script(a, c, k)[3]) ==
      if k.restored then In(s, a, CarrierDisk(s, a, c), Cleaning(c, false)) else RemovalEnd(s, a, c, k)
  {
    hide DoPrepare;
    hide DoCapture;
    hide DoDecide;
    hide DoClean;
    hide Sound;
    hide NumberFree;
    hide ActCopy;
    hide ActIntent;
    var home := Public(Home(s, a));
    var next := Step(In(s, a, TakenDisk(s, a, c), Restoring(c)), Script(a, c, k)[3]);
    if k.restored {
      assert Move(TakenDisk(s, a, c).links, Artifact(c), home) == s.disk.links;
    } else {
      assert next.disk.open == OpenAfter(s, a, k);
      assert next.attempts == RemovalEnd(s, a, c, k).attempts;
    }
  }

  /** Nothing taken, or back under its name. */
  lemma CleanStep(s: State, a: nat, c: nat, k: Luck)
    requires Starts(s, a, c) && Enclosed(s, a, k) && !Unlinked(s, a, k) && !Kept(s, a, k)
    ensures Step(In(s, a, CarrierDisk(s, a, c), Cleaning(c, false)), Script(a, c, k)[4]) == RemovalEnd(s, a, c, k)
  {
    hide DoPrepare;
    hide DoCapture;
    hide DoDecide;
    hide DoRestore;
    hide Sound;
    hide NumberFree;
    hide ActCopy;
    hide ActIntent;
    var next := Step(In(s, a, CarrierDisk(s, a, c), Cleaning(c, false)), Script(a, c, k)[4]);
    assert next.disk.open == OpenAfter(s, a, k);
    assert next.disk.carriers == CarriersAfter(s, a, c, k);
    assert next.attempts == RemovalEnd(s, a, c, k).attempts;
  }

  lemma CleanUnlinked(s: State, a: nat, c: nat, k: Luck)
    requires Starts(s, a, c) && Unlinked(s, a, k)
    ensures Step(In(s, a, UnlinkedDisk(s, a, c), Cleaning(c, k.synced)), Script(a, c, k)[4]) == RemovalEnd(s, a, c, k)
  {
    hide DoPrepare;
    hide DoCapture;
    hide DoDecide;
    hide DoRestore;
    hide Sound;
    hide NumberFree;
    hide ActCopy;
    hide ActIntent;
    var next := Step(In(s, a, UnlinkedDisk(s, a, c), Cleaning(c, k.synced)), Script(a, c, k)[4]);
    assert next.disk.open == OpenAfter(s, a, k);
    assert next.disk.carriers == CarriersAfter(s, a, c, k);
    assert next.attempts == RemovalEnd(s, a, c, k).attempts;
  }

  /** Main theorem of the removal, for every way its operations may fail. The entry is unlinked for
      good exactly when it is the inode the attempt made and holds; any other entry is back under
      its name, or, only if putting it back fails, in the carrier with its receipt. The removal
      counts as done exactly when the entry is unlinked, synced and the carrier cleaned. */
  lemma RemovalExactly(s: State, a: nat, c: nat, k: Luck)
    requires Starts(s, a, c)
    ensures Run(s, Script(a, c, k)) == RemovalEnd(s, a, c, k)
  {
    hide Sound;
    hide Starts;
    hide Step;
    hide RemovalEnd;
    hide CarrierDisk;
    hide TakenDisk;
    hide UnlinkedDisk;
    StartsAlive(s, a, c);
    var x := Script(a, c, k);
    RunFive(s, x);
    PrepareStep(s, a, c, k);
    if !Enclosed(s, a, k) {
      AtEnd(s, a, c, k);
    } else {
      CaptureStep(s, a, c, k);
      if !Taken(s, a, k) {
        var now := In(s, a, CarrierDisk(s, a, c), Cleaning(c, false));
        NotDue(now, a, x[2]);
        NotDue(now, a, x[3]);
        CleanStep(s, a, c, k);
      } else {
        DecideStep(s, a, c, k);
        if Unlinked(s, a, k) {
          NotDue(In(s, a, UnlinkedDisk(s, a, c), Cleaning(c, k.synced)), a, x[3]);
          CleanUnlinked(s, a, c, k);
        } else {
          RestoreStep(s, a, c, k);
          if k.restored { CleanStep(s, a, c, k); } else { AtEnd(s, a, c, k); }
        }
      }
    }
  }

  lemma StartsAlive(s: State, a: nat, c: nat)
    requires Starts(s, a, c)
    ensures a in s.attempts && s.attempts[a].alive && Removing(s.attempts[a].stage)
  {
  }

  /** A removal that ended early has nothing left to do. */
  lemma AtEnd(s: State, a: nat, c: nat, k: Luck)
    requires a in s.attempts && s.attempts[a].alive && !Done(s, a, k)
    ensures var end, x := RemovalEnd(s, a, c, k), Script(a, c, k);
      forall i :: 1 <= i < 5 ==> Step(end, x[i]) == end
  {
    hide Step;
    var end, x := RemovalEnd(s, a, c, k), Script(a, c, k);
    forall i | 1 <= i < 5 ensures Step(end, x[i]) == end { NotDue(end, a, x[i]); }
  }

  // ----- What follows -----

  /** A foreign entry that an undisturbed removal meets ends where it was, with the attempt's marker
      still in place if it was a rollback. */
  lemma ForeignGoesHome(s: State, a: nat, c: nat, k: Luck)
    requires Starts(s, a, c) && k.restored
    requires Public(Home(s, a)) in s.disk.links && Mine(s, a) != Some(s.disk.links[Public(Home(s, a))])
    ensures
      var end := Run(s, Script(a, c, k));
      && end.disk.links == s.disk.links
      && a in end.attempts && end.attempts[a].stage == (if IsRollback(s, a) then Retained else Repairing)
      && (IsRollback(s, a) ==> end.attempts[a].token.Some? && Public(Intent) in end.disk.links
                               && end.disk.links[Public(Intent)] == end.attempts[a].token.value)
  {
    hide DiskOk;
    hide Gone;
    hide Proven;
    hide Run;
    RemovalExactly(s, a, c, k);
    assert AttemptOk(s.disk, a, s.attempts[a]);
  }

  /** One restoring step, in whatever the outsiders have made of the directory: the entry is back
      under the name it came from exactly when the step succeeds and the name is free; otherwise
      it stays in the carrier, and its receipt with it. */
  lemma RestoreReturns(s: State, a: nat, ok: bool)
    requires Sound(s) && a in s.attempts && s.attempts[a].alive
    requires Removing(s.attempts[a].stage) && s.attempts[a].stage.phase.Restoring?
    ensures
      var c, next := s.attempts[a].stage.phase.carrier, Step(s, Restore(a, ok));
      c in s.disk.carriers && Artifact(c) in s.disk.links &&
      var home, i := Public(s.disk.carriers[c].origin), s.disk.links[Artifact(c)];
      && home == Public(if s.attempts[a].stage.Rollback? then Destination else Intent)
      && (if ok && home !in s.disk.links
          then next.disk.links == (s.disk.links - {Artifact(c)})[home := i]
          else next.disk.links == s.disk.links && Over(next.attempts[a].stage))
      && next.disk.carriers == s.disk.carriers && s.disk.carriers[c].receipt
      && next.disk.content == s.disk.content && next.disk.durable == s.disk.durable
  {
    hide DiskOk;
    hide Gone;
    hide Proven;
    assert AttemptOk(s.disk, a, s.attempts[a]);
  }
}

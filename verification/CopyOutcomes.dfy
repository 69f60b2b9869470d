/** Where each failure of a copy leads, and what the directory holds once the attempt has dealt with
    it undisturbed. */
module CopyOutcomes {
  import opened CopyProtocol
  import opened CopySteps
  import opened CopyRemoval
  import opened Text
  import QuietCopy

  const LUCKY := Luck(true, true, true, true, true, true)

  /** The attempt at a stage, alive, in a sound state. */
  ghost predicate At(s: State, a: nat, stage: Stage) {
    Sound(s) && a in s.attempts && s.attempts[a].alive && s.attempts[a].stage == stage
  }

  /** The attempt holds the descriptor of its marker. */
  predicate HoldsMarker(s: State, a: nat) {
    a in s.attempts && s.attempts[a].token.Some? && s.attempts[a].token.value in s.disk.open
  }

  /** The destination leads to the file the attempt made and holds. */
  predicate HoldsCopy(s: State, a: nat) {
    && a in s.attempts && s.attempts[a].output.Some? && s.attempts[a].output.value in s.disk.open
    && Public(Destination) in s.disk.links && s.disk.links[Public(Destination)] == s.attempts[a].output.value
  }

  /** Carriers that nobody uses yet. */
  predicate Unused(s: State, c: nat) { c !in s.disk.carriers && Artifact(c) !in s.disk.links }

  // ----- The checks of a copy notice what they are for -----

  /** The comparison passes exactly when the destination is the very file the attempt made. */
  lemma CompareNotices(s: State, a: nat, ok: bool)
    requires At(s, a, Flushed)
    ensures
      var t, next := s.attempts[a], Step(s, Compare(a, ok));
      && t.output.Some? && next.disk == s.disk
      && next.attempts == s.attempts[a := t.(stage :=
           if ok && Public(Destination) in s.disk.links && s.disk.links[Public(Destination)] == t.output.value
           then (if t.claimed <= 4_294_967_296 then Matched else Checked)
           else Rollback(Preparing))]
  {
    hide Receipted;
    hide Gone;
    hide Proven;
    assert AttemptOk(s.disk, a, s.attempts[a]);
    TidyMeans(s.disk.links, s.disk.open);
    hide Tidy;
  }

  /** Reading back passes exactly when the file opened is the one the attempt made, the destination
      still leads to it, and it holds the bytes that were read. */
  lemma HashNotices(s: State, a: nat, seen: Inode, ok: bool)
    requires At(s, a, Hashing(seen))
    ensures
      var t, next := s.attempts[a], Step(s, CloseHash(a, ok));
      && t.output.Some? && next.disk == s.disk
      && next.attempts == s.attempts[a := t.(stage :=
           if ok && seen == t.output.value && Content(s.disk, seen) == t.read
              && Public(Destination) in s.disk.links && s.disk.links[Public(Destination)] == seen
           then Checked else Rollback(Preparing))]
  {
    hide Receipted;
    hide Gone;
    hide Proven;
    assert AttemptOk(s.disk, a, s.attempts[a]);
    TidyMeans(s.disk.links, s.disk.open);
    hide Tidy;
  }

  /** What is read back is whatever the destination leads to, if it is not above the bound. */
  lemma OpensWhatIsThere(s: State, a: nat, ok: bool)
    requires At(s, a, Matched)
    ensures
      var next := Step(s, OpenForHash(a, ok));
      && next.disk == s.disk
      && next.attempts == s.attempts[a := s.attempts[a].(stage :=
           if ok && Public(Destination) in s.disk.links
              && |Content(s.disk, s.disk.links[Public(Destination)])| <= 4_294_967_296
           then Hashing(s.disk.links[Public(Destination)]) else Rollback(Preparing))]
  {
    hide Sound;
    hide ActRemoval;
  }

  /** A chunk that exceeds the announced size is not written; a flush passes exactly when the source
      did not change and every announced byte was read. */
  lemma WritesNotice(s: State, a: nat, chunk: seq<bv8>, stored: seq<bv8>, stable: bool, ok: bool)
    requires At(s, a, Writing)
    ensures
      var t, next := s.attempts[a], Step(s, CopyChunk(a, chunk, stored, ok));
      && (next.attempts[a].stage == Writing <==> ok && |t.read| + |chunk| <= t.claimed)
      && (next.attempts[a].stage != Writing ==> next.attempts[a].stage == Rollback(Preparing))
      && (|t.read| + |chunk| > t.claimed ==> next.disk == s.disk)
      && next.disk.links == s.disk.links && next.disk.open == s.disk.open
    ensures
      var t, next := s.attempts[a], Step(s, Flush(a, stable, ok));
      && t.output.Some?
      && next.attempts[a].stage ==
           (if ok && stable && |t.read| == t.claimed then Flushed else Rollback(Preparing))
      && next.disk == (if ok && stable && |t.read| == t.claimed
                       then s.disk.(durable := s.disk.durable + {t.output.value}) else s.disk)
  {
    hide DiskOk;
    hide Gone;
    hide Proven;
    assert AttemptOk(s.disk, a, s.attempts[a]);
  }

  // ----- Undoing, end to end -----

  function Retirement(a: nat, c: nat): seq<Action> { Script(a, c, LUCKY) + [Seal(a, true)] }

  predicate Closes(s: State, end: State, a: nat)
    requires a in s.attempts
  {
    && end.disk.open == s.disk.open - Own(s.attempts[a])
    && end.attempts == s.attempts[a := s.attempts[a].(stage := Finished(true))]
  }

  /** Retiring a held marker takes it away, closes everything and leaves the rest alone. */
  lemma RetireClears(s: State, a: nat, c: nat)
    requires At(s, a, Retiring(Preparing)) && HoldsMarker(s, a) && Unused(s, c)
    ensures
      var end := Run(s, Retirement(a, c));
      Closes(s, end, a) && end.disk.links == s.disk.links - {Public(Intent)}
  {
    hide Run;
    RetireRuns(s, a, c);
    MarkerThere(s, a);
    hide Sound;
    hide NumberFree;
    hide ActCopy;
    hide ActRemoval;
    var sealing := RemovalEnd(s, a, c, LUCKY);
    var end := Step(sealing, Seal(a, true));
    assert Own(sealing.attempts[a]) == Own(s.attempts[a]);
    assert end.disk.open == s.disk.open - Own(s.attempts[a]);
    assert end.attempts == s.attempts[a := s.attempts[a].(stage := Finished(true))];
  }

  lemma MarkerThere(s: State, a: nat)
    requires Sound(s) && a in s.attempts && Holding(s.attempts[a].stage)
    ensures s.attempts[a].token.Some? && Public(Intent) in s.disk.links
    ensures s.disk.links[Public(Intent)] == s.attempts[a].token.value
  {
    hide DiskOk;
    hide Gone;
    hide Proven;
    assert AttemptOk(s.disk, a, s.attempts[a]);
  }

  lemma RetireRuns(s: State, a: nat, c: nat)
    requires At(s, a, Retiring(Preparing)) && HoldsMarker(s, a) && Unused(s, c)
    ensures Run(s, Retirement(a, c)) == Step(RemovalEnd(s, a, c, LUCKY), Seal(a, true))
  {
    hide Sound;
    hide Step;
    hide RemovalEnd;
    assert Starts(s, a, c);
    RemovalExactly(s, a, c, LUCKY);
    QuietCopy.RunTwice(s, Script(a, c, LUCKY), [Seal(a, true)]);
    var sealing := RemovalEnd(s, a, c, LUCKY);
    assert Run(sealing, [Seal(a, true)]) == Run(Step(sealing, Seal(a, true)), []);
  }

  /** Rolling back a held copy and retiring the marker takes both away and leaves the rest alone. */
  lemma RollbackClears(s: State, a: nat, c: nat, d: nat)
    requires At(s, a, Rollback(Preparing)) && HoldsMarker(s, a) && HoldsCopy(s, a)
    requires Unused(s, c) && Unused(s, d) && c != d
    ensures
      var end := Run(s, Script(a, c, LUCKY) + Retirement(a, d));
      Closes(s, end, a) && end.disk.links == s.disk.links - {Public(Destination), Public(Intent)}
  {
    hide Step;
    hide Sound;
    var middle := RemovalEnd(s, a, c, LUCKY);
    RemovalExactly(s, a, c, LUCKY);
    QuietCopy.RunTwice(s, Script(a, c, LUCKY), Retirement(a, d));
    RunKeeps(s, Script(a, c, LUCKY));
    hide Run;
    DifferentOwn(s, a);
    RetireClears(middle, a, d);
    assert middle.disk.open == s.disk.open - {s.attempts[a].output.value};
    assert Own(middle.attempts[a]) == Own(s.attempts[a]);
    var end := Run(middle, Retirement(a, d));
    assert end.disk.links == s.disk.links - {Public(Destination), Public(Intent)};
  }

  /** The marker and the copy of an attempt are two inodes. */
  lemma DifferentOwn(s: State, a: nat)
    requires Sound(s) && a in s.attempts && s.attempts[a].token.Some? && s.attempts[a].output.Some?
    ensures s.attempts[a].token.value != s.attempts[a].output.value
  {
    hide DiskOk;
    hide Gone;
    hide Proven;
    assert AttemptOk(s.disk, a, s.attempts[a]);
  }

  /** An operation of the copy that fails, at the stage where it is due. */
  predicate Fails(stage: Stage, action: Action) {
    || (stage.Writing? && action.CopyChunk? && !action.ok)
    || (stage.Writing? && action.Flush? && !(action.ok && action.stable))
    || (stage.Flushed? && action.Compare? && !action.ok)
    || (stage.Matched? && action.OpenForHash? && !action.ok)
    || (stage.Hashing? && action.CloseHash? && !action.ok)
    || (stage.Checked? && action.Conclude? && !action.ok)
    || (stage.Deferred? && action.Settle? && !action.keep)
  }

  lemma FailureRollsBack(s: State, a: nat, action: Action)
    requires Sound(s) && a in s.attempts && s.attempts[a].alive
    requires Fails(s.attempts[a].stage, action) && action.attempt == a
    ensures
      var next := Step(s, action);
      && At(next, a, Rollback(Preparing)) && next.disk.links == s.disk.links && next.disk.open == s.disk.open
      && next.disk.carriers == s.disk.carriers
      && next.attempts[a].token == s.attempts[a].token && next.attempts[a].output == s.attempts[a].output
      && next.attempts == s.attempts[a := next.attempts[a]]
  {
    StepKeeps(s, action);
    hide Sound;
    hide ActRemoval;
  }

  /** Whatever fails between the first byte and the conclusion, and whoever settles a deferred copy
      against keeping it: dealt with undisturbed, the directory is as it was before the attempt. */
  lemma FailureUndone(s: State, a: nat, action: Action, c: nat, d: nat)
    requires Sound(s) && a in s.attempts && s.attempts[a].alive
    requires Fails(s.attempts[a].stage, action) && action.attempt == a
    requires HoldsMarker(s, a) && HoldsCopy(s, a) && Unused(s, c) && Unused(s, d) && c != d
    ensures
      var end := Run(s, [action] + (Script(a, c, LUCKY) + Retirement(a, d)));
      && end.disk.links == s.disk.links - {Public(Destination), Public(Intent)}
      && end.disk.open == s.disk.open - Own(s.attempts[a])
      && a in end.attempts && end.attempts[a].stage == Finished(true)
  {
    hide Sound;
    hide Step;
    hide Fails;
    var rest := Script(a, c, LUCKY) + Retirement(a, d);
    var next := Step(s, action);
    assert ([action] + rest)[1..] == rest;
    assert Run(s, [action] + rest) == Run(next, rest);
    hide Run;
    FailureRollsBack(s, a, action);
    RollbackClears(next, a, c, d);
  }

  /** A step that goes on to retirement, and the retirement. */
  lemma RetiresNext(s: State, a: nat, action: Action, c: nat)
    requires Sound(s) && a in s.attempts && HoldsMarker(s, a) && Unused(s, c) && s.attempts[a].alive
    requires Step(s, action) == State(s.disk, s.attempts[a := s.attempts[a].(stage := Retiring(Preparing))])
    ensures
      var end := Run(s, [action] + Retirement(a, c));
      Closes(s, end, a) && end.disk.links == s.disk.links - {Public(Intent)}
  {
    hide Sound;
    hide Step;
    StepKeeps(s, action);
    var next := Step(s, action);
    assert ([action] + Retirement(a, c))[1..] == Retirement(a, c);
    assert Run(s, [action] + Retirement(a, c)) == Run(next, Retirement(a, c));
    hide Run;
    RetireClears(next, a, c);
    assert next.attempts[a := next.attempts[a].(stage := Finished(true))] ==
      s.attempts[a := s.attempts[a].(stage := Finished(true))];
  }

  /** An outsider has put another file in the place of the copy: the comparison notices, the rollback
      captures what is there, whichever of its operations fail before it comes to putting the entry
      back, and the entry ends where it was, with the marker still in place. */
  lemma ReplacementReturned(s: State, a: nat, c: nat, ok: bool, k: Luck)
    requires At(s, a, Flushed) && Unused(s, c) && k.restored
    requires Public(Destination) in s.disk.links && s.attempts[a].output != Some(s.disk.links[Public(Destination)])
    ensures
      var end := Run(s, [Compare(a, ok)] + Script(a, c, k));
      && end.disk.links == s.disk.links && a in end.attempts && end.attempts[a].stage == Retained
      && s.attempts[a].token.Some? && Public(Intent) in end.disk.links
      && end.disk.links[Public(Intent)] == s.attempts[a].token.value
  {
    hide Sound;
    hide Step;
    var next := Step(s, Compare(a, ok));
    CompareNotices(s, a, ok);
    StepKeeps(s, Compare(a, ok));
    MarkerThere(s, a);
    assert ([Compare(a, ok)] + Script(a, c, k))[1..] == Script(a, c, k);
    assert Run(s, [Compare(a, ok)] + Script(a, c, k)) == Run(next, Script(a, c, k));
    hide Run;
    ForeignGoesHome(next, a, c, k);
  }

  /** Before there is a copy: a marker that cannot be synced, a file that cannot be created or whose
      name is taken. The marker goes again, and nothing else has changed. */
  lemma EarlyFailureUndone(s: State, a: nat, action: Action, c: nat)
    requires Sound(s) && a in s.attempts && s.attempts[a].alive
    requires
      || (s.attempts[a].stage.Identified? && action.SyncMarker? && !action.ok)
      || (s.attempts[a].stage.Copying? && action.CreateFile? && (!action.ok || Public(Destination) in s.disk.links))
    requires action.attempt == a && HoldsMarker(s, a) && Unused(s, c)
    ensures
      var end := Run(s, [action] + Retirement(a, c));
      Closes(s, end, a) && end.disk.links == s.disk.links - {Public(Intent)}
  {
    hide Run;
    hide Sound;
    hide ActRemoval;
    RetiresNext(s, a, action, c);
  }

  /** A concluded copy, deferred and then kept or not deferred at all, keeps its file. */
  lemma ConcludedKept(s: State, a: nat, action: Action, c: nat)
    requires Sound(s) && a in s.attempts && s.attempts[a].alive
    requires
      || (s.attempts[a].stage.Deferred? && action.Settle? && action.keep)
      || (s.attempts[a].stage.Checked? && action.Conclude? && action.ok && !action.deferred)
    requires action.attempt == a && HoldsMarker(s, a) && Unused(s, c)
    ensures
      var end := Run(s, [action] + Retirement(a, c));
      Closes(s, end, a) && end.disk.links == s.disk.links - {Public(Intent)}
  {
    hide Run;
    hide Sound;
    hide ActRemoval;
    RetiresNext(s, a, action, c);
  }

  /** A deferred copy waits: nothing is retired until it is settled. */
  lemma DeferredWaits(s: State, a: nat)
    requires At(s, a, Checked)
    ensures Step(s, Conclude(a, true, true)) == State(s.disk, s.attempts[a := s.attempts[a].(stage := Deferred)])
  {
    hide Sound;
    hide ActRemoval;
  }

  /** What cannot be told from someone else's is left for review, marker and file where they are. */
  lemma LeftForReview(s: State, a: nat, action: Action)
    requires Sound(s) && a in s.attempts && s.attempts[a].alive
    requires
      || (s.attempts[a].stage.Marked? && action.IdentifyMarker? && !action.ok)
      || (s.attempts[a].stage.Created? && action.StatFile? && !action.ok)
    requires action.attempt == a
    ensures Step(s, action) == State(s.disk.(open := s.disk.open - Own(s.attempts[a])),
                                     s.attempts[a := s.attempts[a].(stage := Retained)])
  {
    hide Sound;
    hide ActRemoval;
  }

  /** An attempt that finds a marker, or cannot make its own, ends at once and has changed nothing. */
  lemma MarkerRefuses(s: State, a: nat, number: nat, ok: bool)
    requires At(s, a, Opening) && (!ok || Public(Intent) in s.disk.links)
    ensures
      var next := Step(s, CreateMarker(a, number, ok));
      next.disk.links == s.disk.links && next.disk.content == s.disk.content && next.disk.carriers == s.disk.carriers
      && next.attempts == s.attempts[a := s.attempts[a].(stage := Finished(false))]
  {
    hide Sound;
    hide ActRemoval;
  }

  /** A marker that was taken away but could not be sealed, or was found replaced and put back, is
      stood in for by a barrier wherever its name is free; the attempt has not ended well. */
  lemma BarrierPlaced(s: State, a: nat, number: nat, ok: bool)
    requires At(s, a, Repairing)
    requires forall p :: p in s.disk.links ==> s.disk.links[p].number != number
    requires forall i :: i in s.disk.open ==> i.number != number
    ensures
      var next := Step(s, Retain(a, number, ok));
      && next.disk.links == (if ok && Public(Intent) !in s.disk.links
                             then s.disk.links[Public(Intent) := Inode(number, BarrierOf(a))] else s.disk.links)
      && next.disk.open == s.disk.open - Own(s.attempts[a])
      && next.attempts == s.attempts[a := s.attempts[a].(stage := Finished(false))]
  {
    hide Sound;
    hide ActRemoval;
  }

  lemma UnsealedRepairs(s: State, a: nat)
    requires At(s, a, Sealing)
    ensures Step(s, Seal(a, false)) == State(s.disk, s.attempts[a := s.attempts[a].(stage := Repairing)])
  {
    hide Sound;
    hide ActRemoval;
  }

  // ----- Directories, crashes and outsiders -----

  /** Any directory will do to begin with, whatever stands at the two names. */
  lemma AnyDirectory(links: map<Place, Inode>, content: map<Inode, seq<bv8>>, durable: set<Inode>)
    requires forall p :: p in links ==> !p.Artifact? && links[p].maker == Someone
    requires forall p, q :: p in links && q in links && p != q ==> links[p].number != links[q].number
    ensures Initial(State(Disk(links, {}, map[], content, durable), map[]))
  {
  }

  /** A crash closes the attempt's descriptors, leaves every name, byte and carrier as it is, and is
      for good: no later step of anyone revives or moves the attempt. */
  lemma CrashIsFinal(s: State, a: nat, actions: seq<Action>)
    requires a in s.attempts && s.attempts[a].alive
    ensures
      var next := Step(s, Crash(a));
      && next.disk == s.disk.(open := s.disk.open - Own(s.attempts[a]))
      && a in Run(next, actions).attempts && Run(next, actions).attempts[a] == s.attempts[a].(alive := false)
  {
    DeadStays(Step(s, Crash(a)), a, actions);
  }

  lemma {:induction false} DeadStays(s: State, a: nat, actions: seq<Action>)
    requires a in s.attempts && !s.attempts[a].alive
    ensures a in Run(s, actions).attempts && Run(s, actions).attempts[a] == s.attempts[a]
    decreases |actions|
  {
    hide Step;
    if actions != [] {
      DeadStep(s, a, actions[0]);
      DeadStays(Step(s, actions[0]), a, actions[1..]);
    }
  }

  lemma DeadStep(s: State, a: nat, action: Action)
    requires a in s.attempts && !s.attempts[a].alive
    ensures a in Step(s, action).attempts && Step(s, action).attempts[a] == s.attempts[a]
  {
    hide Leads;
    hide NumberFree;
    if !Outside(action) && !action.Begin? && action.attempt in s.attempts && s.attempts[action.attempt].alive
       && !action.Crash? {
      ActsAlone(s, action.attempt, a, action);
    }
  }

  /** A step of one attempt leaves the records of the others alone. */
  lemma ActsAlone(s: State, b: nat, a: nat, action: Action)
    requires b in s.attempts && a in s.attempts && a != b
    ensures a in Act(s, b, action).attempts && Act(s, b, action).attempts[a] == s.attempts[a]
  {
    hide NumberFree;
    hide Leads;
    hide Move;
  }

  /** Outsiders may put a file under any free name but the marker's, with any number that nothing
      links or holds, reused or not; move any entry over any other; and remove any. */
  lemma OutsidersAct(s: State, p: Place, to: Place, number: nat, bytes: seq<bv8>)
    requires (p == Public(Destination) || p.Elsewhere?) && (to == Public(Destination) || to.Elsewhere?)
    ensures
      p !in s.disk.links
      && (forall q :: q in s.disk.links ==> s.disk.links[q].number != number)
      && (forall i :: i in s.disk.open ==> i.number != number) ==>
        var i, next := Inode(number, Someone), Step(s, Appear(p, number, bytes));
        next == s.(disk := s.disk.(links := s.disk.links[p := i], content := s.disk.content[i := bytes]))
    ensures p in s.disk.links && p != to ==>
      Step(s, Rename(p, to)) == s.(disk := s.disk.(links := (s.disk.links - {p})[to := s.disk.links[p]]))
    ensures Step(s, Vanish(p)) == s.(disk := s.disk.(links := s.disk.links - {p}))
  {
  }
}

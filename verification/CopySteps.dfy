/** Every step of the copy protocol, by an attempt or an outsider, keeps its invariant. */
module CopySteps {
  import opened CopyProtocol
  import opened Text

  // ----- How links change -----

  /** Tidiness, one pair of places or inodes at a time. */
  lemma TidyMeans(links: map<Place, Inode>, open: set<Inode>)
    requires Tidy(links, open)
    ensures forall p, q :: p in links && q in links && links[p].number == links[q].number ==> p == q
    ensures forall p, i :: p in links && i in open && links[p].number == i.number ==> links[p] == i
    ensures forall i, j :: i in open && j in open && i.number == j.number ==> i == j
  {
    forall p, q | p in links && q in links && links[p].number == links[q].number ensures p == q {
      assert PlacesAgree(links, p, q);
    }
    forall p, i | p in links && i in open && links[p].number == i.number ensures links[p] == i {
      assert HeldAgrees(links, open, p, i);
    }
    forall i, j | i in open && j in open && i.number == j.number ensures i == j {
      assert OpenAgree(open, i, j);
    }
  }

  lemma CreateKeeps(links: map<Place, Inode>, open: set<Inode>, p: Place, i: Inode)
    requires Tidy(links, open) && NumberFree(links, open, i.number) && p !in links
    ensures Tidy(links[p := i], open + {i}) && Tidy(links[p := i], open)
    ensures forall j: Inode :: j != i && Gone(links, j) ==> Gone(links[p := i], j)
  {
    TidyMeans(links, open);
  }

  lemma MoveKeeps(links: map<Place, Inode>, open: set<Inode>, from: Place, to: Place)
    requires Tidy(links, open) && from in links && from != to
    ensures Tidy(Move(links, from, to), open)
    ensures forall j: Inode :: Gone(links, j) ==> Gone(Move(links, from, to), j)
  {
    TidyMeans(links, open);
  }

  lemma UnlinkKeeps(links: map<Place, Inode>, open: set<Inode>, p: Place)
    requires Tidy(links, open)
    ensures Tidy(links - {p}, open)
    ensures forall j: Inode :: Gone(links, j) ==> Gone(links - {p}, j)
    ensures p in links ==> Gone(links - {p}, links[p])
  {
    TidyMeans(links, open);
  }

  lemma CloseKeeps(links: map<Place, Inode>, open: set<Inode>, less: set<Inode>)
    requires Tidy(links, open) && less <= open
    ensures Tidy(links, less)
  {
    TidyMeans(links, open);
  }

  lemma ReceiptedElsewhere(links: map<Place, Inode>, after: map<Place, Inode>, carriers: map<nat, Carrier>)
    requires Receipted(links, carriers)
    requires forall c :: Artifact(c) in after ==> Artifact(c) in links
    ensures Receipted(after, carriers)
  {
  }

  // ----- One attempt does not disturb another -----

  predicate By(i: Inode, a: nat) { i.maker != Someone && i.maker.attempt == a }

  /** What someone else's step leaves alone: the marker, file and carriers of attempt `b`. */
  ghost predicate Spares(d: Disk, e: Disk, b: nat) {
    (forall i: Inode :: SparesInode(d, e, b, i)) && (forall c: nat :: SparesCarrier(d, e, b, c))
  }

  ghost predicate SparesInode(d: Disk, e: Disk, b: nat, i: Inode) {
    By(i, b) ==>
      && (Gone(d.links, i) ==> Gone(e.links, i)) && (i in d.open ==> i in e.open)
      && Content(e, i) == Content(d, i) && (i in d.durable ==> i in e.durable)
  }

  ghost predicate SparesCarrier(d: Disk, e: Disk, b: nat, c: nat) {
    c in d.carriers && d.carriers[c].owner == b ==>
      c in e.carriers && e.carriers[c] == d.carriers[c] && (Artifact(c) in e.links <==> Artifact(c) in d.links)
  }

  /** The marker of every attempt but `a` stays where it is. */
  ghost predicate MarkerStays(d: Disk, e: Disk, a: nat) {
    Public(Intent) in d.links && d.links[Public(Intent)].maker != MarkerOf(a) ==>
      Public(Intent) in e.links && e.links[Public(Intent)] == d.links[Public(Intent)]
  }

  ghost predicate SparesOthers(d: Disk, e: Disk, a: nat) {
    MarkerStays(d, e, a) && forall b :: b != a ==> Spares(d, e, b)
  }

  lemma SparedOk(d: Disk, e: Disk, a: nat, b: nat, t: Attempt)
    requires AttemptOk(d, b, t) && a != b && MarkerStays(d, e, a) && Spares(d, e, b)
    ensures AttemptOk(e, b, t)
  {
    hide Gone;
    if t.output.Some? { assert SparesInode(d, e, b, t.output.value); }
    if t.token.Some? { assert SparesInode(d, e, b, t.token.value); }
    if Removing(t.stage) && !t.stage.phase.Preparing? { assert SparesCarrier(d, e, b, t.stage.phase.carrier); }
  }

  /** A step that brings the disk from `d` to `e` and the attempt to record `t`. */
  ghost predicate StepOk(d: Disk, e: Disk, a: nat, t: Attempt) {
    DiskOk(e) && AttemptOk(e, a, t) && SparesOthers(d, e, a)
  }

  lemma StepSound(s: State, a: nat, e: Disk, t: Attempt)
    requires Sound(s) && a in s.attempts && StepOk(s.disk, e, a, t)
    ensures Sound(State(e, s.attempts[a := t]))
  {
    hide DiskOk;
    hide Spares;
    hide MarkerStays;
    hide AttemptOk;
    forall b | b in s.attempts && b != a ensures AttemptOk(e, b, s.attempts[b]) {
      SparedOk(s.disk, e, a, b, s.attempts[b]);
    }
  }

  /** A transition of attempt `a` that keeps everything. */
  ghost predicate Advances(s: State, next: State, a: nat) {
    && a in s.attempts && a in next.attempts && next.attempts == s.attempts[a := next.attempts[a]]
    && StepOk(s.disk, next.disk, a, next.attempts[a])
  }

  ghost predicate Ready(s: State, a: nat) {
    DiskOk(s.disk) && a in s.attempts && AttemptOk(s.disk, a, s.attempts[a])
  }

  lemma SparesTransitive(d: Disk, e: Disk, f: Disk, a: nat)
    requires SparesOthers(d, e, a) && SparesOthers(e, f, a)
    ensures SparesOthers(d, f, a)
  {
    hide Gone;
    hide Content;
    forall b | b != a ensures Spares(d, f, b) {
      assert Spares(d, e, b) && Spares(e, f, b);
      forall i: Inode ensures SparesInode(d, f, b, i) {
        assert SparesInode(d, e, b, i) && SparesInode(e, f, b, i);
      }
      forall c: nat ensures SparesCarrier(d, f, b, c) {
        assert SparesCarrier(d, e, b, c) && SparesCarrier(e, f, b, c);
      }
    }
  }

  // ----- The steps of an attempt -----

  lemma SparesSame(d: Disk, a: nat)
    ensures SparesOthers(d, d, a)
  {
  }

  /** Moving on to a stage for which the attempt's record already qualifies. */
  lemma GoOk(s: State, a: nat, stage: Stage)
    requires Ready(s, a) && AttemptOk(s.disk, a, s.attempts[a].(stage := stage))
    ensures Advances(s, Go(s, a, stage), a)
  {
    hide DiskOk;
    hide AttemptOk;
    hide SparesOthers;
    SparesSame(s.disk, a);
  }

  /** Closing the attempt's own descriptors. */
  lemma CloseOthers(d: Disk, e: Disk, a: nat)
    requires DiskOk(d) && e.open <= d.open && e == d.(open := e.open)
    requires forall i :: i in d.open && !By(i, a) ==> i in e.open
    ensures DiskOk(e) && SparesOthers(d, e, a)
  {
    hide Tidy;
    hide Receipted;
    hide Gone;
    CloseKeeps(d.links, d.open, e.open);
  }

  lemma EndOk(s: State, a: nat, stage: Stage)
    requires Ready(s, a) && AttemptOk(s.disk, a, s.attempts[a].(stage := stage)) && !WithFile(stage)
    ensures Advances(s, End(s, a, stage), a)
  {
    hide DiskOk;
    hide Gone;
    hide SparesOthers;
    CloseOthers(s.disk, End(s, a, stage).disk, a);
  }

  /** Linking a new inode of its own disturbs no other attempt. */
  lemma CreateOthers(d: Disk, e: Disk, a: nat, p: Place, i: Inode)
    requires DiskOk(d) && NumberFree(d.links, d.open, i.number) && p !in d.links && p.Public? && By(i, a)
    requires e == d.(links := d.links[p := i], open := e.open, content := e.content)
    requires e.open == d.open || e.open == d.open + {i}
    requires e.content == d.content || e.content == d.content[i := []]
    ensures DiskOk(e) && SparesOthers(d, e, a)
    ensures forall j: Inode :: j != i && Gone(d.links, j) ==> Gone(e.links, j)
  {
    hide Tidy;
    hide Receipted;
    hide Gone;
    hide NumberFree;
    CreateKeeps(d.links, d.open, p, i);
    ReceiptedElsewhere(d.links, e.links, d.carriers);
  }

  lemma CreateMarkerOk(s: State, a: nat, number: nat, ok: bool)
    requires Ready(s, a) && s.attempts[a].stage.Opening?
    ensures DoCreateMarker(s, a, number, ok) == s || Advances(s, DoCreateMarker(s, a, number, ok), a)
  {
    hide DiskOk;
    hide Gone;
    hide NumberFree;
    hide SparesOthers;
    hide Proven;
    hide CarrierOk;
    if !ok || Public(Intent) in s.disk.links {
      EndOk(s, a, Finished(false));
    } else if NumberFree(s.disk.links, s.disk.open, number) {
      CreateOthers(s.disk, DoCreateMarker(s, a, number, ok).disk, a, Public(Intent), Inode(number, MarkerOf(a)));
    }
  }

  lemma CreateFileOk(s: State, a: nat, number: nat, claimed: nat, ok: bool)
    requires Ready(s, a) && s.attempts[a].stage.Copying?
    ensures DoCreateFile(s, a, number, claimed, ok) == s || Advances(s, DoCreateFile(s, a, number, claimed, ok), a)
  {
    hide DiskOk;
    hide Gone;
    hide NumberFree;
    hide SparesOthers;
    hide Proven;
    var i := Inode(number, CopyOf(a));
    if !ok || Public(Destination) in s.disk.links {
      GoOk(s, a, Retiring(Preparing));
    } else if NumberFree(s.disk.links, s.disk.open, number) {
      CreateOthers(s.disk, DoCreateFile(s, a, number, claimed, ok).disk, a, Public(Destination), i);
    }
  }

  /** Writing and syncing its own file disturbs no other attempt. */
  lemma WriteOthers(d: Disk, e: Disk, a: nat, i: Inode)
    requires DiskOk(d) && i.maker == CopyOf(a)
    requires e == d.(content := d.content[i := Content(e, i)]) || e == d.(durable := d.durable + {i})
    ensures DiskOk(e) && SparesOthers(d, e, a)
  {
    hide Tidy;
    hide Receipted;
    hide Gone;
  }

  lemma CopyChunkOk(s: State, a: nat, chunk: seq<bv8>, stored: seq<bv8>, ok: bool)
    requires Ready(s, a) && s.attempts[a].stage.Writing?
    ensures Advances(s, DoCopyChunk(s, a, chunk, stored, ok), a)
  {
    hide DiskOk;
    hide Gone;
    hide Proven;
    hide SparesOthers;
    var t := s.attempts[a];
    if t.output.None? || |t.read| + |chunk| > t.claimed {
      GoOk(s, a, Rollback(Preparing));
    } else {
      WriteOthers(s.disk, DoCopyChunk(s, a, chunk, stored, ok).disk, a, t.output.value);
    }
  }

  lemma FlushOk(s: State, a: nat, stable: bool, ok: bool)
    requires Ready(s, a) && s.attempts[a].stage.Writing?
    ensures Advances(s, DoFlush(s, a, stable, ok), a)
  {
    hide DiskOk;
    hide Gone;
    hide Proven;
    hide SparesOthers;
    var t := s.attempts[a];
    if t.output.None? || !stable || |t.read| != t.claimed || !ok {
      GoOk(s, a, Rollback(Preparing));
    } else {
      WriteOthers(s.disk, DoFlush(s, a, stable, ok).disk, a, t.output.value);
    }
  }

  lemma CompareOk(s: State, a: nat, ok: bool)
    requires Ready(s, a) && s.attempts[a].stage.Flushed?
    ensures Advances(s, DoCompare(s, a, ok), a)
  {
    hide DiskOk;
    hide Gone;
    GoOk(s, a, DoCompare(s, a, ok).attempts[a].stage);
  }

  /** An inode found under the public name with the number of a file still held is that file. */
  lemma OpenForHashOk(s: State, a: nat, ok: bool)
    requires Ready(s, a) && s.attempts[a].stage.Matched? && s.attempts[a].alive
    ensures Advances(s, DoOpenForHash(s, a, ok), a)
  {
    hide DiskOk;
    hide Gone;
    hide Proven;
    var t := s.attempts[a];
    if ok && Public(Destination) in s.disk.links && s.disk.links[Public(Destination)].number == t.output.value.number {
      SameNumber(s.disk, Public(Destination), t.output.value);
    }
    GoOk(s, a, DoOpenForHash(s, a, ok).attempts[a].stage);
  }

  lemma CloseHashOk(s: State, a: nat, ok: bool)
    requires Ready(s, a) && s.attempts[a].stage.Hashing?
    ensures Advances(s, DoCloseHash(s, a, ok), a)
  {
    hide DiskOk;
    hide Gone;
    GoOk(s, a, DoCloseHash(s, a, ok).attempts[a].stage);
  }

  // ----- The steps of a removal -----

  lemma AfterOk(s: State, a: nat, removed: bool)
    requires Ready(s, a) && Removing(s.attempts[a].stage)
    requires removed ==> s.attempts[a].stage.phase.Cleaning? && s.attempts[a].stage.phase.removed
    ensures Advances(s, After(s, a, removed), a)
  {
    hide DiskOk;
    hide Gone;
    hide Proven;
    if s.attempts[a].stage.Rollback? && !removed {
      EndOk(s, a, Retained);
    } else {
      GoOk(s, a, After(s, a, removed).attempts[a].stage);
    }
  }

  lemma PrepareOthers(d: Disk, e: Disk, a: nat, c: nat, name: Name)
    requires DiskOk(d) && c !in d.carriers && e == d.(carriers := d.carriers[c := Carrier(a, name, true)])
    ensures DiskOk(e) && SparesOthers(d, e, a)
  {
    hide Tidy;
    hide Gone;
  }

  lemma PrepareOk(s: State, a: nat, c: nat, ok: bool)
    requires Ready(s, a) && Removing(s.attempts[a].stage) && s.attempts[a].stage.phase.Preparing?
    ensures DoPrepare(s, a, c, ok) == s || Advances(s, DoPrepare(s, a, c, ok), a)
  {
    hide DiskOk;
    hide Gone;
    hide SparesOthers;
    hide After;
    var t := s.attempts[a];
    if !ok || Expected(t).None? || Expected(t).value !in s.disk.open {
      AfterOk(s, a, false);
    } else if c !in s.disk.carriers && Artifact(c) !in s.disk.links {
      PrepareOthers(s.disk, DoPrepare(s, a, c, ok).disk, a, c, Target(t.stage));
    }
  }

  /** Moving an entry into or out of the attempt's own carrier. */
  lemma MoveOthers(d: Disk, e: Disk, a: nat, from: Place, to: Place, c: nat)
    requires DiskOk(d) && from in d.links && from != to && e == d.(links := Move(d.links, from, to))
    requires c in d.carriers && d.carriers[c].owner == a && d.carriers[c].receipt
    requires (from == Artifact(c) && to.Public?) || (from.Public? && to == Artifact(c))
    requires from == Public(Intent) ==> d.links[from].maker == MarkerOf(a)
    requires to.Public? ==> to !in d.links
    ensures DiskOk(e) && SparesOthers(d, e, a)
    ensures forall i :: Gone(d.links, i) ==> Gone(e.links, i)
  {
    hide Tidy;
    hide Gone;
    MoveKeeps(d.links, d.open, from, to);
  }

  lemma CaptureOk(s: State, a: nat, c: nat, ok: bool)
    requires Ready(s, a) && Removing(s.attempts[a].stage) && s.attempts[a].stage.phase == Prepared(c)
    ensures Advances(s, DoCapture(s, a, c, ok), a)
  {
    hide DiskOk;
    hide Gone;
    hide SparesOthers;
    var stage := s.attempts[a].stage;
    var entry := Public(Target(stage));
    if !ok || entry !in s.disk.links {
      GoOk(s, a, InPhase(stage, Cleaning(c, false)));
    } else {
      MoveOthers(s.disk, DoCapture(s, a, c, ok).disk, a, entry, Artifact(c), c);
    }
  }

  lemma UnlinkOthers(d: Disk, e: Disk, a: nat, c: nat, i: Inode)
    requires DiskOk(d) && Artifact(c) in d.links && c in d.carriers && d.carriers[c].owner == a && By(i, a)
    requires e == d.(links := d.links - {Artifact(c)}, open := d.open - {i})
    ensures DiskOk(e) && SparesOthers(d, e, a)
    ensures Gone(e.links, d.links[Artifact(c)]) && forall j :: Gone(d.links, j) ==> Gone(e.links, j)
  {
    hide Tidy;
    hide Gone;
    UnlinkKeeps(d.links, d.open, Artifact(c));
    CloseKeeps(e.links, d.open, e.open);
  }

  /** A captured inode with the number of a held one is that one. */
  lemma SameNumber(d: Disk, p: Place, i: Inode)
    requires DiskOk(d) && p in d.links && i in d.open && d.links[p].number == i.number
    ensures d.links[p] == i
  {
    hide Receipted;
    TidyMeans(d.links, d.open);
  }

  /** The code compares numbers, but what it unlinks is the very inode it expects and holds. */
  lemma DecideOk(s: State, a: nat, c: nat, ok: bool, synced: bool)
    requires Ready(s, a) && Removing(s.attempts[a].stage) && s.attempts[a].stage.phase == Captured(c)
    ensures Advances(s, DoDecide(s, a, c, ok, synced), a)
    ensures Artifact(c) in s.disk.links && Artifact(c) !in DoDecide(s, a, c, ok, synced).disk.links ==>
      s.disk.links[Artifact(c)] in s.disk.open && Expected(s.attempts[a]) == Some(s.disk.links[Artifact(c)])
  {
    hide DiskOk;
    hide Gone;
    hide SparesOthers;
    var t, i := s.attempts[a], Expected(s.attempts[a]);
    if ok && i.Some? && i.value in s.disk.open && Artifact(c) in s.disk.links
       && s.disk.links[Artifact(c)].number == i.value.number {
      SameNumber(s.disk, Artifact(c), i.value);
      UnlinkOthers(s.disk, DoDecide(s, a, c, ok, synced).disk, a, c, i.value);
    } else {
      GoOk(s, a, InPhase(t.stage, Restoring(c)));
    }
  }

  lemma RestoreOk(s: State, a: nat, c: nat, ok: bool)
    requires Ready(s, a) && Removing(s.attempts[a].stage) && s.attempts[a].stage.phase == Restoring(c)
    ensures Advances(s, DoRestore(s, a, c, ok), a)
  {
    hide DiskOk;
    hide Gone;
    hide SparesOthers;
    hide After;
    var stage := s.attempts[a].stage;
    var entry := Public(Target(stage));
    if ok && Artifact(c) in s.disk.links && entry !in s.disk.links {
      MoveOthers(s.disk, DoRestore(s, a, c, ok).disk, a, Artifact(c), entry, c);
    } else {
      AfterOk(s, a, false);
    }
  }

  lemma CleanOthers(d: Disk, e: Disk, a: nat, c: nat)
    requires DiskOk(d) && c in d.carriers && d.carriers[c].owner == a && Artifact(c) !in d.links
    requires e == d.(carriers := d.carriers[c := d.carriers[c].(receipt := false)])
    ensures DiskOk(e) && SparesOthers(d, e, a)
  {
    hide Tidy;
    hide Gone;
  }

  lemma CleanOk(s: State, a: nat, c: nat, removed: bool, ok: bool)
    requires Ready(s, a) && Removing(s.attempts[a].stage) && s.attempts[a].stage.phase == Cleaning(c, removed)
    ensures Advances(s, DoClean(s, a, c, removed, ok), a)
  {
    hide DiskOk;
    hide Gone;
    hide SparesOthers;
    hide After;
    if ok {
      var d := s.disk.(carriers := s.disk.carriers[c := s.disk.carriers[c].(receipt := false)]);
      CleanOthers(s.disk, d, a, c);
      CleanedOk(s, a, removed, d);
    } else {
      AfterOk(s, a, false);
    }
  }

  lemma CleanedOk(s: State, a: nat, removed: bool, d: Disk)
    requires Ready(s, a) && Removing(s.attempts[a].stage) && s.attempts[a].stage.phase.Cleaning?
    requires removed ==> s.attempts[a].stage.phase.removed
    requires DiskOk(d) && SparesOthers(s.disk, d, a) && d == s.disk.(carriers := d.carriers)
    ensures Advances(s, After(WithDisk(s, d), a, removed), a)
  {
    hide DiskOk;
    hide Gone;
    hide SparesOthers;
    var next := After(WithDisk(s, d), a, removed);
    if next.disk != d {
      CloseOthers(d, next.disk, a);
      SparesTransitive(s.disk, d, next.disk, a);
    }
  }

  lemma RetainOk(s: State, a: nat, number: nat, ok: bool)
    requires Ready(s, a) && s.attempts[a].stage.Repairing?
    ensures DoRetain(s, a, number, ok) == s || Advances(s, DoRetain(s, a, number, ok), a)
  {
    hide DiskOk;
    hide Gone;
    hide NumberFree;
    hide SparesOthers;
    if !ok || Public(Intent) in s.disk.links {
      EndOk(s, a, Finished(false));
    } else if NumberFree(s.disk.links, s.disk.open, number) {
      var i, e := Inode(number, BarrierOf(a)), DoRetain(s, a, number, ok).disk;
      var d := s.disk.(links := s.disk.links[Public(Intent) := i]);
      CreateOthers(s.disk, d, a, Public(Intent), i);
      CloseOthers(d, e, a);
      SparesTransitive(s.disk, d, e, a);
    }
  }

  lemma CrashOk(s: State, a: nat)
    requires Ready(s, a)
    ensures Advances(s, DoCrash(s, a), a)
  {
    hide DiskOk;
    hide Gone;
    hide SparesOthers;
    CloseOthers(s.disk, DoCrash(s, a).disk, a);
  }

  // ----- Every step and every run -----

  lemma RemovalAdvances(s: State, a: nat, action: Action)
    requires a in s.attempts && Ready(s, a) && Removing(s.attempts[a].stage)
    ensures ActRemoval(s, a, action) == s || Advances(s, ActRemoval(s, a, action), a)
  {
    hide Ready;
    hide Advances;
    hide DoPrepare;
    hide DoCapture;
    hide DoDecide;
    hide DoRestore;
    hide DoClean;
    var phase := s.attempts[a].stage.phase;
    match action
    case Prepare(_, carrier, ok) => if phase.Preparing? { PrepareOk(s, a, carrier, ok); }
    case Capture(_, ok) => if phase.Prepared? { CaptureOk(s, a, phase.carrier, ok); }
    case Decide(_, ok, synced) => if phase.Captured? { DecideOk(s, a, phase.carrier, ok, synced); }
    case Restore(_, ok) => if phase.Restoring? { RestoreOk(s, a, phase.carrier, ok); }
    case Clean(_, ok) => if phase.Cleaning? { CleanOk(s, a, phase.carrier, phase.removed, ok); }
    case _ =>
  }

  lemma CopyAdvances(s: State, a: nat, action: Action)
    requires a in s.attempts && Ready(s, a) && s.attempts[a].alive
    ensures ActCopy(s, a, action) == s || Advances(s, ActCopy(s, a, action), a)
  {
    hide Ready;
    hide Advances;
    hide DoCreateFile;
    hide DoCopyChunk;
    hide DoFlush;
    hide DoCompare;
    hide DoOpenForHash;
    hide DoCloseHash;
    var stage := s.attempts[a].stage;
    match action
    case CreateFile(_, number, claimed, ok) => if stage.Copying? { CreateFileOk(s, a, number, claimed, ok); }
    case CopyChunk(_, chunk, stored, ok) => if stage.Writing? { CopyChunkOk(s, a, chunk, stored, ok); }
    case Flush(_, stable, ok) => if stage.Writing? { FlushOk(s, a, stable, ok); }
    case Compare(_, ok) => if stage.Flushed? { CompareOk(s, a, ok); }
    case OpenForHash(_, ok) => if stage.Matched? { OpenForHashOk(s, a, ok); }
    case CloseHash(_, ok) => if stage.Hashing? { CloseHashOk(s, a, ok); }
    case _ =>
  }

  /** The stages that a step may simply move on to. */
  predicate Follows(from: Stage, to: Stage) {
    match from
    case Marked => to == Identified
    case Identified => to == Copying || to == Retiring(Preparing)
    case Created => to == Writing
    case Checked => to == Rollback(Preparing) || to == Deferred || to == Retiring(Preparing)
    case Deferred => to == Rollback(Preparing) || to == Retiring(Preparing)
    case Sealing => to == Repairing
    case _ => false
  }

  /** The stages in which a step may end the attempt. */
  predicate Ends(from: Stage, to: Stage) {
    match from
    case Marked => to == Retained
    case Created => to == Retained
    case Sealing => to == Finished(true)
    case _ => false
  }

  lemma ChoiceAdvances(s: State, a: nat, stage: Stage)
    requires Ready(s, a) && Follows(s.attempts[a].stage, stage)
    ensures Advances(s, Go(s, a, stage), a)
  {
    hide DiskOk;
    hide Gone;
    hide Proven;
    GoOk(s, a, stage);
  }

  lemma EndAdvances(s: State, a: nat, stage: Stage)
    requires Ready(s, a) && Ends(s.attempts[a].stage, stage)
    ensures Advances(s, End(s, a, stage), a)
  {
    hide DiskOk;
    hide Gone;
    hide Proven;
    EndOk(s, a, stage);
  }

  lemma IntentAdvances(s: State, a: nat, action: Action)
    requires a in s.attempts && Ready(s, a)
    ensures ActIntent(s, a, action) == s || Advances(s, ActIntent(s, a, action), a)
  {
    hide Ready;
    hide Advances;
    hide DoCreateMarker;
    hide DoRetain;
    hide Go;
    hide End;
    var stage := s.attempts[a].stage;
    match action
    case CreateMarker(_, number, ok) => if stage.Opening? { CreateMarkerOk(s, a, number, ok); }
    case IdentifyMarker(_, ok) =>
      if stage.Marked? { if ok { ChoiceAdvances(s, a, Identified); } else { EndAdvances(s, a, Retained); } }
    case SyncMarker(_, ok) =>
      if stage.Identified? { ChoiceAdvances(s, a, if ok then Copying else Retiring(Preparing)); }
    case StatFile(_, ok) =>
      if stage.Created? { if ok { ChoiceAdvances(s, a, Writing); } else { EndAdvances(s, a, Retained); } }
    case Conclude(_, deferred, ok) =>
      if stage.Checked? {
        ChoiceAdvances(s, a, if !ok then Rollback(Preparing) else if deferred then Deferred else Retiring(Preparing));
      }
    case Settle(_, keep) =>
      if stage.Deferred? { ChoiceAdvances(s, a, if keep then Retiring(Preparing) else Rollback(Preparing)); }
    case Seal(_, ok) =>
      if stage.Sealing? { if ok { EndAdvances(s, a, Finished(true)); } else { ChoiceAdvances(s, a, Repairing); } }
    case Retain(_, number, ok) => if stage.Repairing? { RetainOk(s, a, number, ok); }
    case _ =>
  }

  lemma ActAdvances(s: State, a: nat, action: Action)
    requires a in s.attempts && Ready(s, a) && s.attempts[a].alive
    ensures Act(s, a, action) == s || Advances(s, Act(s, a, action), a)
  {
    hide Ready;
    hide Advances;
    hide ActRemoval;
    hide ActCopy;
    hide ActIntent;
    if Removing(s.attempts[a].stage) {
      RemovalAdvances(s, a, action);
    } else {
      CopyAdvances(s, a, action);
      IntentAdvances(s, a, action);
    }
  }

  lemma OutsiderSpares(s: State, action: Action)
    requires DiskOk(s.disk) && Outside(action)
    ensures DiskOk(Interfere(s, action).disk) && Interfere(s, action).attempts == s.attempts
    ensures forall b :: Spares(s.disk, Interfere(s, action).disk, b)
    ensures forall a :: MarkerStays(s.disk, Interfere(s, action).disk, a)
  {
    hide Tidy;
    hide Receipted;
    hide Gone;
    hide NumberFree;
    var d, e := s.disk, Interfere(s, action).disk;
    ReceiptedElsewhere(d.links, e.links, d.carriers);
    match action
    case Appear(p, number, bytes) =>
      if Shared(p) && p !in d.links && NumberFree(d.links, d.open, number) {
        CreateKeeps(d.links, d.open, p, Inode(number, Someone));
      }
    case Rename(from, to) =>
      if Shared(from) && Shared(to) && from in d.links && from != to { MoveKeeps(d.links, d.open, from, to); }
    case Vanish(p) => UnlinkKeeps(d.links, d.open, p);
  }

  /** Every step, by anyone, of any attempt, keeps the protocol sound. */
  lemma StepKeeps(s: State, action: Action)
    requires Sound(s)
    ensures Sound(Step(s, action))
  {
    hide DiskOk;
    hide AttemptOk;
    hide Spares;
    hide MarkerStays;
    hide Act;
    hide DoCrash;
    hide Interfere;
    hide SparesOthers;
    if Outside(action) {
      OutsiderSpares(s, action);
      forall b | b in s.attempts ensures AttemptOk(Step(s, action).disk, b, s.attempts[b]) {
        SparedOk(s.disk, Step(s, action).disk, b + 1, b, s.attempts[b]);
      }
    } else if action.Begin? {
      BeginOk(s, action.attempt);
    } else if action.attempt in s.attempts && s.attempts[action.attempt].alive {
      var a, next := action.attempt, Step(s, action);
      if action.Crash? { CrashOk(s, a); } else { ActAdvances(s, a, action); }
      if next != s { StepSound(s, a, next.disk, next.attempts[a]); }
    }
  }

  lemma BeginOk(s: State, a: nat)
    requires DiskOk(s.disk)
    ensures AttemptOk(s.disk, a, Attempt(Opening, true, None, None, 0, []))
  {
  }

  lemma {:induction false} RunKeeps(s: State, actions: seq<Action>)
    requires Sound(s)
    ensures Sound(Run(s, actions))
    decreases |actions|
  {
    hide Sound;
    hide Step;
    if actions != [] {
      StepKeeps(s, actions[0]);
      RunKeeps(Step(s, actions[0]), actions[1..]);
    }
  }

  lemma InitialSound(s: State)
    requires Initial(s)
    ensures Sound(s)
  {
  }
}

/** Copying a chapter under an exclusive intent marker, as a state machine.

    Any number of attempts at one destination run interleaved with outsiders who rename,
    replace and delete public entries between any two steps. Every operation may fail and
    every attempt may crash at any step. Outsiders leave the intent name and the private
    carriers alone, make no hard links, and do not write into an attempt's file. */
module CopyProtocol {
  import opened Text

  /** The largest source whose copy is verified. */
  const BOUND := 4294967296

  // ----- The directory, the carriers and the attempts -----

  datatype Name = Destination | Intent

  datatype Place =
    | Public(name: Name)
    | Elsewhere(path: nat)
    | Artifact(carrier: nat)

  datatype Maker = MarkerOf(attempt: nat) | CopyOf(attempt: nat) | BarrierOf(attempt: nat) | Someone

  /** An inode. The program sees only its number, which is reused once nothing links or holds it. */
  datatype Inode = Inode(number: nat, maker: Maker)

  /** A private rollback directory and the origin its receipt records. */
  datatype Carrier = Carrier(owner: nat, origin: Name, receipt: bool)

  /** Capturing an entry into a carrier before deciding about it. */
  datatype Phase =
    | Preparing
    | Prepared(carrier: nat)
    | Captured(carrier: nat)
    | Restoring(carrier: nat)
    | Cleaning(carrier: nat, removed: bool)

  datatype Stage =
    | Opening
    | Marked
    | Identified
    | Copying
    | Created
    | Writing
    | Flushed
    | Matched
    | Hashing(seen: Inode)
    | Checked
    | Rollback(phase: Phase)
    | Deferred
    | Retiring(phase: Phase)
    | Sealing
    | Repairing
    | Retained
    | Finished(retired: bool)

  /** `claimed` is the size of the source when it was opened, `read` the bytes read from it. */
  datatype Attempt = Attempt(
    stage: Stage, alive: bool, token: Option<Inode>, output: Option<Inode>, claimed: nat, read: seq<bv8>)

  /** No inode has two links. `open` holds the inodes some attempt has a descriptor for. */
  datatype Disk = Disk(
    links: map<Place, Inode>, open: set<Inode>, carriers: map<nat, Carrier>,
    content: map<Inode, seq<bv8>>, durable: set<Inode>)

  datatype State = State(disk: Disk, attempts: map<nat, Attempt>)

  function Content(d: Disk, i: Inode): seq<bv8> { if i in d.content then d.content[i] else [] }

  predicate NumberFree(links: map<Place, Inode>, open: set<Inode>, number: nat) {
    && (forall p :: p in links ==> links[p].number != number)
    && (forall i :: i in open ==> i.number != number)
  }

  datatype Action =
    | Begin(attempt: nat)
    | CreateMarker(attempt: nat, number: nat, ok: bool)
    | IdentifyMarker(attempt: nat, ok: bool)
    | SyncMarker(attempt: nat, ok: bool)
    | CreateFile(attempt: nat, number: nat, claimed: nat, ok: bool)
    | StatFile(attempt: nat, ok: bool)
    | CopyChunk(attempt: nat, chunk: seq<bv8>, stored: seq<bv8>, ok: bool)
    | Flush(attempt: nat, stable: bool, ok: bool)
    | Compare(attempt: nat, ok: bool)
    | OpenForHash(attempt: nat, ok: bool)
    | CloseHash(attempt: nat, ok: bool)
    | Conclude(attempt: nat, deferred: bool, ok: bool)
    | Settle(attempt: nat, keep: bool)
    | Prepare(attempt: nat, carrier: nat, ok: bool)
    | Capture(attempt: nat, ok: bool)
    | Decide(attempt: nat, ok: bool, synced: bool)
    | Restore(attempt: nat, ok: bool)
    | Clean(attempt: nat, ok: bool)
    | Seal(attempt: nat, ok: bool)
    | Retain(attempt: nat, number: nat, ok: bool)
    | Crash(attempt: nat)
    | Appear(place: Place, number: nat, bytes: seq<bv8>)
    | Rename(from: Place, to: Place)
    | Vanish(place: Place)

  predicate Outside(action: Action) { action.Appear? || action.Rename? || action.Vanish? }

  /** Where outsiders act. */
  predicate Shared(p: Place) { p == Public(Destination) || p.Elsewhere? }

  function Move(links: map<Place, Inode>, from: Place, to: Place): map<Place, Inode>
    requires from in links
  {
    (links - {from})[to := links[from]]
  }

  function Go(s: State, a: nat, stage: Stage): State
    requires a in s.attempts
  {
    s.(attempts := s.attempts[a := s.attempts[a].(stage := stage)])
  }

  function WithDisk(s: State, d: Disk): State { s.(disk := d) }

  function Own(t: Attempt): set<Inode> {
    (if t.token.Some? then {t.token.value} else {}) + (if t.output.Some? then {t.output.value} else {})
  }

  /** The attempt ends and its descriptors are closed. */
  function End(s: State, a: nat, stage: Stage): State
    requires a in s.attempts
  {
    WithDisk(Go(s, a, stage), s.disk.(open := s.disk.open - Own(s.attempts[a])))
  }

  // ----- One step of an attempt -----

  function DoCreateMarker(s: State, a: nat, number: nat, ok: bool): State
    requires a in s.attempts
  {
    if !ok || Public(Intent) in s.disk.links then End(s, a, Finished(false))
    else if !NumberFree(s.disk.links, s.disk.open, number) then s
    else
      var i := Inode(number, MarkerOf(a));
      State(s.disk.(links := s.disk.links[Public(Intent) := i], open := s.disk.open + {i}),
            s.attempts[a := s.attempts[a].(stage := Marked, token := Some(i))])
  }

  function DoCreateFile(s: State, a: nat, number: nat, claimed: nat, ok: bool): State
    requires a in s.attempts
  {
    if !ok || Public(Destination) in s.disk.links then Go(s, a, Retiring(Preparing))
    else if !NumberFree(s.disk.links, s.disk.open, number) then s
    else
      var i := Inode(number, CopyOf(a));
      State(s.disk.(links := s.disk.links[Public(Destination) := i], open := s.disk.open + {i},
                    content := s.disk.content[i := []]),
            s.attempts[a := s.attempts[a].(stage := Created, output := Some(i), claimed := claimed, read := [])])
  }

  /** `stored` is what a write really leaves behind, which the program has yet to find out. */
  function DoCopyChunk(s: State, a: nat, chunk: seq<bv8>, stored: seq<bv8>, ok: bool): State
    requires a in s.attempts
  {
    var t := s.attempts[a];
    if t.output.None? || |t.read| + |chunk| > t.claimed then Go(s, a, Rollback(Preparing))
    else
      State(s.disk.(content := s.disk.content[t.output.value := Content(s.disk, t.output.value) + stored]),
            s.attempts[a := t.(stage := if ok then Writing else Rollback(Preparing), read := t.read + chunk)])
  }

  function DoFlush(s: State, a: nat, stable: bool, ok: bool): State
    requires a in s.attempts
  {
    var t := s.attempts[a];
    if t.output.None? || !stable || |t.read| != t.claimed || !ok then Go(s, a, Rollback(Preparing))
    else WithDisk(Go(s, a, Flushed), s.disk.(durable := s.disk.durable + {t.output.value}))
  }

  /** The public name still leads to an inode of this number. */
  predicate Leads(links: map<Place, Inode>, name: Name, i: Option<Inode>) {
    i.Some? && Public(name) in links && links[Public(name)].number == i.value.number
  }

  function DoCompare(s: State, a: nat, ok: bool): State
    requires a in s.attempts
  {
    var t := s.attempts[a];
    if ok && Leads(s.disk.links, Destination, t.output) then Go(s, a, if t.claimed <= BOUND then Matched else Checked)
    else Go(s, a, Rollback(Preparing))
  }

  function DoOpenForHash(s: State, a: nat, ok: bool): State
    requires a in s.attempts
  {
    if ok && Public(Destination) in s.disk.links && |Content(s.disk, s.disk.links[Public(Destination)])| <= BOUND
    then Go(s, a, Hashing(s.disk.links[Public(Destination)]))
    else Go(s, a, Rollback(Preparing))
  }

  /** Equal digests are taken to mean equal bytes. */
  function DoCloseHash(s: State, a: nat, ok: bool): State
    requires a in s.attempts && s.attempts[a].stage.Hashing?
  {
    var t, i := s.attempts[a], s.attempts[a].stage.seen;
    if ok && Leads(s.disk.links, Destination, Some(i)) && Leads(s.disk.links, Destination, t.output)
       && Content(s.disk, i) == t.read
    then Go(s, a, Checked)
    else Go(s, a, Rollback(Preparing))
  }

  // ----- Removing an entry by capturing it first -----

  predicate Removing(stage: Stage) { stage.Rollback? || stage.Retiring? }

  /** A rollback takes the destination away, retirement the marker. */
  function Target(stage: Stage): Name
    requires Removing(stage)
  {
    if stage.Rollback? then Destination else Intent
  }

  function Expected(t: Attempt): Option<Inode>
    requires Removing(t.stage)
  {
    if t.stage.Rollback? then t.output else t.token
  }

  function InPhase(stage: Stage, phase: Phase): Stage
    requires Removing(stage)
  {
    if stage.Rollback? then Rollback(phase) else Retiring(phase)
  }

  /** What follows a removal that succeeded or did not. */
  function After(s: State, a: nat, removed: bool): State
    requires a in s.attempts && Removing(s.attempts[a].stage)
  {
    if s.attempts[a].stage.Rollback? then
      if removed then Go(s, a, Retiring(Preparing)) else End(s, a, Retained)
    else Go(s, a, if removed then Sealing else Repairing)
  }

  function DoPrepare(s: State, a: nat, carrier: nat, ok: bool): State
    requires a in s.attempts && Removing(s.attempts[a].stage)
  {
    var t := s.attempts[a];
    if !ok || Expected(t).None? || Expected(t).value !in s.disk.open then After(s, a, false)
    else if carrier in s.disk.carriers || Artifact(carrier) in s.disk.links then s
    else
      WithDisk(Go(s, a, InPhase(t.stage, Prepared(carrier))),
               s.disk.(carriers := s.disk.carriers[carrier := Carrier(a, Target(t.stage), true)]))
  }

  function DoCapture(s: State, a: nat, c: nat, ok: bool): State
    requires a in s.attempts && Removing(s.attempts[a].stage)
  {
    var stage := s.attempts[a].stage;
    var entry := Public(Target(stage));
    if !ok || entry !in s.disk.links then Go(s, a, InPhase(stage, Cleaning(c, false)))
    else WithDisk(Go(s, a, InPhase(stage, Captured(c))), s.disk.(links := Move(s.disk.links, entry, Artifact(c))))
  }

  /** The captured entry is unlinked only when it has the expected number and its inode is still held. */
  function DoDecide(s: State, a: nat, c: nat, ok: bool, synced: bool): State
    requires a in s.attempts && Removing(s.attempts[a].stage)
  {
    var t := s.attempts[a];
    if ok && Expected(t).Some? && Expected(t).value in s.disk.open && Artifact(c) in s.disk.links
       && s.disk.links[Artifact(c)].number == Expected(t).value.number
    then
      WithDisk(Go(s, a, InPhase(t.stage, Cleaning(c, synced))),
               s.disk.(links := s.disk.links - {Artifact(c)}, open := s.disk.open - {Expected(t).value}))
    else Go(s, a, InPhase(t.stage, Restoring(c)))
  }

  /** The entry goes back only when its name is still free. */
  function DoRestore(s: State, a: nat, c: nat, ok: bool): State
    requires a in s.attempts && Removing(s.attempts[a].stage)
  {
    var stage := s.attempts[a].stage;
    var entry := Public(Target(stage));
    if ok && Artifact(c) in s.disk.links && entry !in s.disk.links
    then
      WithDisk(Go(s, a, InPhase(stage, Cleaning(c, false))),
               s.disk.(links := Move(s.disk.links, Artifact(c), entry)))
    else After(s, a, false)
  }

  function DoClean(s: State, a: nat, c: nat, removed: bool, ok: bool): State
    requires a in s.attempts && Removing(s.attempts[a].stage)
  {
    if ok && c in s.disk.carriers
    then
      var carriers := s.disk.carriers[c := s.disk.carriers[c].(receipt := false)];
      After(WithDisk(s, s.disk.(carriers := carriers)), a, removed)
    else After(s, a, false)
  }

  function DoRetain(s: State, a: nat, number: nat, ok: bool): State
    requires a in s.attempts
  {
    if !ok || Public(Intent) in s.disk.links then End(s, a, Finished(false))
    else if !NumberFree(s.disk.links, s.disk.open, number) then s
    else
      var i := Inode(number, BarrierOf(a));
      End(WithDisk(s, s.disk.(links := s.disk.links[Public(Intent) := i])), a, Finished(false))
  }

  function ActRemoval(s: State, a: nat, action: Action): State
    requires a in s.attempts && Removing(s.attempts[a].stage)
  {
    var phase := s.attempts[a].stage.phase;
    match action
    case Prepare(_, carrier, ok) => if phase.Preparing? then DoPrepare(s, a, carrier, ok) else s
    case Capture(_, ok) => if phase.Prepared? then DoCapture(s, a, phase.carrier, ok) else s
    case Decide(_, ok, synced) => if phase.Captured? then DoDecide(s, a, phase.carrier, ok, synced) else s
    case Restore(_, ok) => if phase.Restoring? then DoRestore(s, a, phase.carrier, ok) else s
    case Clean(_, ok) => if phase.Cleaning? then DoClean(s, a, phase.carrier, phase.removed, ok) else s
    case _ => s
  }

  function ActCopy(s: State, a: nat, action: Action): State
    requires a in s.attempts
  {
    var stage := s.attempts[a].stage;
    match action
    case CreateFile(_, number, claimed, ok) => if stage.Copying? then DoCreateFile(s, a, number, claimed, ok) else s
    case CopyChunk(_, chunk, stored, ok) => if stage.Writing? then DoCopyChunk(s, a, chunk, stored, ok) else s
    case Flush(_, stable, ok) => if stage.Writing? then DoFlush(s, a, stable, ok) else s
    case Compare(_, ok) => if stage.Flushed? then DoCompare(s, a, ok) else s
    case OpenForHash(_, ok) => if stage.Matched? then DoOpenForHash(s, a, ok) else s
    case CloseHash(_, ok) => if stage.Hashing? then DoCloseHash(s, a, ok) else s
    case _ => s
  }

  function ActIntent(s: State, a: nat, action: Action): State
    requires a in s.attempts
  {
    var stage := s.attempts[a].stage;
    match action
    case CreateMarker(_, number, ok) => if stage.Opening? then DoCreateMarker(s, a, number, ok) else s
    case IdentifyMarker(_, ok) => if !stage.Marked? then s else if ok then Go(s, a, Identified) else End(s, a, Retained)
    case SyncMarker(_, ok) => if !stage.Identified? then s else Go(s, a, if ok then Copying else Retiring(Preparing))
    case StatFile(_, ok) => if !stage.Created? then s else if ok then Go(s, a, Writing) else End(s, a, Retained)
    case Conclude(_, deferred, ok) =>
      if !stage.Checked? then s
      else Go(s, a, if !ok then Rollback(Preparing) else if deferred then Deferred else Retiring(Preparing))
    case Settle(_, keep) =>
      if !stage.Deferred? then s else Go(s, a, if keep then Retiring(Preparing) else Rollback(Preparing))
    case Seal(_, ok) => if !stage.Sealing? then s else if ok then End(s, a, Finished(true)) else Go(s, a, Repairing)
    case Retain(_, number, ok) => if stage.Repairing? then DoRetain(s, a, number, ok) else s
    case _ => s
  }

  predicate OnCopy(action: Action) {
    action.CreateFile? || action.CopyChunk? || action.Flush? || action.Compare? || action.OpenForHash?
      || action.CloseHash?
  }

  function Act(s: State, a: nat, action: Action): State
    requires a in s.attempts
  {
    if Removing(s.attempts[a].stage) then ActRemoval(s, a, action)
    else if OnCopy(action) then ActCopy(s, a, action)
    else ActIntent(s, a, action)
  }

  /** A crash closes the descriptors and leaves everything else as it is. */
  function DoCrash(s: State, a: nat): State
    requires a in s.attempts
  {
    State(s.disk.(open := s.disk.open - Own(s.attempts[a])), s.attempts[a := s.attempts[a].(alive := false)])
  }

  function Interfere(s: State, action: Action): State
    requires Outside(action)
  {
    match action
    case Appear(p, number, bytes) =>
      if Shared(p) && p !in s.disk.links && NumberFree(s.disk.links, s.disk.open, number) then
        var i := Inode(number, Someone);
        WithDisk(s, s.disk.(links := s.disk.links[p := i], content := s.disk.content[i := bytes]))
      else s
    case Rename(from, to) =>
      if Shared(from) && Shared(to) && from in s.disk.links && from != to
      then WithDisk(s, s.disk.(links := Move(s.disk.links, from, to)))
      else s
    case Vanish(p) => if Shared(p) then WithDisk(s, s.disk.(links := s.disk.links - {p})) else s
  }

  function Step(s: State, action: Action): State {
    if Outside(action) then Interfere(s, action)
    else if action.Begin? then
      if action.attempt in s.attempts then s
      else s.(attempts := s.attempts[action.attempt := Attempt(Opening, true, None, None, 0, [])])
    else if action.attempt !in s.attempts || !s.attempts[action.attempt].alive then s
    else if action.Crash? then DoCrash(s, action.attempt)
    else Act(s, action.attempt, action)
  }

  function Run(s: State, actions: seq<Action>): State
    decreases |actions|
  {
    if actions == [] then s else Run(Step(s, actions[0]), actions[1..])
  }

  /** Any directory to begin with: the destination and even the marker may already exist. */
  predicate Initial(s: State) {
    && (forall p, q ::
          p in s.disk.links && q in s.disk.links && s.disk.links[p].number == s.disk.links[q].number ==> p == q)
    && (forall p :: p in s.disk.links ==> !p.Artifact? && s.disk.links[p].maker == Someone)
    && s.disk.open == {} && s.disk.carriers == map[] && s.attempts == map[]
  }

  // ----- What every step keeps -----

  /** The attempt's own marker stands at the intent name. */
  predicate Holding(stage: Stage) {
    match stage
    case Opening => false
    case Retiring(phase) => phase.Preparing? || phase.Prepared?
    case Sealing => false
    case Repairing => false
    case Finished(_) => false
    case _ => true
  }

  predicate BeforeCopy(stage: Stage) { stage.Opening? || stage.Marked? || stage.Identified? || stage.Copying? }

  predicate Released(stage: Stage) { stage.Retiring? || stage.Sealing? || stage.Repairing? || stage.Finished? }

  /** Retirement has taken the attempt's marker away for good. */
  predicate MarkerRetired(stage: Stage) {
    (stage.Retiring? && stage.phase.Cleaning? && stage.phase.removed) || stage.Sealing?
      || (stage.Finished? && stage.retired)
  }

  /** The created file is held open from its creation to the end of verification. */
  predicate WithFile(stage: Stage) {
    stage.Created? || stage.Writing? || stage.Flushed? || stage.Matched? || stage.Hashing? || stage.Checked?
  }

  /** The copy is on disk, took every byte of a source that did not change, and, within the
      bound, was read back equal to those bytes. */
  predicate Proven(d: Disk, output: Option<Inode>, claimed: nat, read: seq<bv8>) {
    && output.Some? && output.value in d.durable && |read| == claimed
    && (claimed <= BOUND ==> Content(d, output.value) == read)
  }

  predicate Gone(links: map<Place, Inode>, i: Inode) { forall p :: p in links ==> links[p] != i }

  predicate Settled(d: Disk, output: Option<Inode>, claimed: nat, read: seq<bv8>) {
    output.None? || Gone(d.links, output.value) || Proven(d, output, claimed, read)
  }

  /** Among everything linked or held, a number names one inode and an inode has one link. */
  ghost predicate Tidy(links: map<Place, Inode>, open: set<Inode>) {
    && (forall p, q :: PlacesAgree(links, p, q))
    && (forall p, i :: HeldAgrees(links, open, p, i))
    && (forall i, j :: OpenAgree(open, i, j))
  }

  predicate PlacesAgree(links: map<Place, Inode>, p: Place, q: Place) {
    p in links && q in links && links[p].number == links[q].number ==> p == q
  }

  predicate HeldAgrees(links: map<Place, Inode>, open: set<Inode>, p: Place, i: Inode) {
    p in links && i in open && links[p].number == i.number ==> links[p] == i
  }

  predicate OpenAgree(open: set<Inode>, i: Inode, j: Inode) {
    i in open && j in open && i.number == j.number ==> i == j
  }

  /** No captured entry is without its receipt. */
  ghost predicate Receipted(links: map<Place, Inode>, carriers: map<nat, Carrier>) {
    forall c :: Artifact(c) in links ==> c in carriers && carriers[c].receipt
  }

  predicate CarrierOk(d: Disk, a: nat, name: Name, phase: Phase) {
    !phase.Preparing? ==>
      && phase.carrier in d.carriers && d.carriers[phase.carrier] == Carrier(a, name, true)
      && (Artifact(phase.carrier) in d.links <==> phase.Captured? || phase.Restoring?)
  }

  predicate AttemptOk(d: Disk, a: nat, t: Attempt) {
    && (t.token.Some? ==> t.token.value.maker == MarkerOf(a))
    && (t.output.Some? ==> t.output.value.maker == CopyOf(a))
    && (t.stage.Opening? ==> t.token.None?)
    && (BeforeCopy(t.stage) ==> t.output.None?)
    && (Holding(t.stage) ==> t.token.Some? && Public(Intent) in d.links && d.links[Public(Intent)] == t.token.value)
    && (t.alive && WithFile(t.stage) ==> t.output.Some? && t.output.value in d.open)
    && (t.stage.Flushed? || t.stage.Matched? || t.stage.Hashing? ==>
          t.output.Some? && t.output.value in d.durable && |t.read| == t.claimed)
    && (t.stage.Hashing? && t.output.Some? && t.stage.seen.number == t.output.value.number ==>
          t.stage.seen == t.output.value)
    && (t.stage.Checked? || t.stage.Deferred? ==> Proven(d, t.output, t.claimed, t.read))
    && (Released(t.stage) ==> Settled(d, t.output, t.claimed, t.read))
    && (Removing(t.stage) ==> CarrierOk(d, a, Target(t.stage), t.stage.phase))
    && (t.stage.Rollback? && t.stage.phase.Cleaning? && t.stage.phase.removed ==>
          t.output.Some? && Gone(d.links, t.output.value))
    && (MarkerRetired(t.stage) ==> t.token.Some? && Gone(d.links, t.token.value))
  }

  ghost predicate DiskOk(d: Disk) { Tidy(d.links, d.open) && Receipted(d.links, d.carriers) }

  ghost predicate Sound(s: State) {
    DiskOk(s.disk) && forall a :: a in s.attempts ==> AttemptOk(s.disk, a, s.attempts[a])
  }
}

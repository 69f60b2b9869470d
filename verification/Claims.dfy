/** Which native objects may appear in the next proof set of a claim, and how their enrolled
    constraints may move, as a claim passes through its phases. */
module Claims {
  import opened Text

  // ----- Journals -----

  datatype Phase = Allocated | Claiming | Claimed | Restoring | Restored | Discarding | Discarded

  /** A private carrier of the journal: its phase and the receipt of a restoration. */
  datatype Carrier = Carrier(phase: Phase, receipt: Option<string>)

  datatype Key = SourceKey | StageKey | PublicationKey | RollbackKey

  datatype Purpose =
    | Source | Destination | OperationParent
    | CarrierOf(key: Key) | MarkerOf(key: Key) | ArtifactOf(key: Key)
    | Target | Claim | DeleteCarrier | DeleteMarker | DeleteArtifact
    | NamespaceRole(part: string)

  /** The journal row behind a snapshot. `known` holds the carriers whose fingerprint is
      recorded; `fromTarget` says that the carrier's origin is the target path. */
  datatype Row =
    | RescanRow(carriers: map<Key, Carrier>, published: Option<string>, known: set<Key>, samePath: bool, state: string)
    | DeletionRow(record: Option<Carrier>, fromTarget: bool, targetPresent: bool, state: string)
    | NamespaceRow

  function CarrierAt(row: Row, key: Key): Option<Carrier> {
    if row.RescanRow? && key in row.carriers then Some(row.carriers[key]) else None
  }

  // ----- Proofs -----

  type Native = string

  /** The device-independent constraints enrolled with an object; a missing one is not enrolled. */
  datatype Fields = Fields(
    inode: Option<int>, size: Option<int>, mtime: Option<int>, sha256: Option<string>,
    uid: Option<int>, mode: Option<int>, nlink: Option<int>)

  datatype Obj = Obj(purpose: Purpose, native: Native, fields: Fields)

  datatype ProofSet = ProofSet(row: Row, objects: seq<Obj>, absent: set<Purpose>)

  /** The object enrolled for a purpose. */
  function Prior(objects: seq<Obj>, purpose: Purpose): Option<Obj> {
    if objects == [] then None
    else if objects[|objects| - 1].purpose == purpose then Some(objects[|objects| - 1])
    else Prior(objects[..|objects| - 1], purpose)
  }

  function Listed(o: Option<Obj>): seq<Obj> { if o.Some? then [o.value] else [] }

  /** The first candidate that is the captured native object. */
  function Match(candidates: seq<Obj>, native: Native): Option<Obj> {
    if candidates == [] then None
    else if candidates[0].native == native then Some(candidates[0])
    else Match(candidates[1..], native)
  }

  predicate Persists<T(==)>(was: Option<T>, now: Option<T>) { was.None? || now == was }

  predicate OthersPersist(before: Fields, after: Fields) {
    && Persists(before.inode, after.inode) && Persists(before.size, after.size) && Persists(before.mtime, after.mtime)
    && Persists(before.sha256, after.sha256) && Persists(before.uid, after.uid) && Persists(before.mode, after.mode)
  }

  predicate Moved(before: Option<int>, after: Option<int>, change: int) {
    before.Some? && after == Some(before.value + change)
  }

  /** A restoration finished between the two rows and left its receipt. */
  predicate RestoredNow(before: Option<Carrier>, after: Option<Carrier>) {
    && before.Some? && after.Some?
    && before.value.phase == Restoring && before.value.receipt.None?
    && after.value.phase == Restored && after.value.receipt.Some?
  }

  predicate DiscardingNow(before: Option<Carrier>, after: Option<Carrier>) {
    && before.Some? && after.Some?
    && before.value.phase == Discarding && (after.value.phase == Discarding || after.value.phase == Discarded)
  }

  // ----- Rescan claims -----

  /** Where the object now under a purpose may have been before. */
  function RescanCandidates(prev: seq<Obj>, row: Row, purpose: Purpose): seq<Obj>
    requires row.RescanRow?
  {
    var destination := Prior(prev, Destination);
    Listed(Prior(prev, purpose)) +
    match purpose
    case ArtifactOf(SourceKey) => Listed(Prior(prev, Source))
    case ArtifactOf(RollbackKey) => Listed(if destination.Some? then destination else Prior(prev, Source))
    case Destination => if row.published.Some? then Listed(Prior(prev, ArtifactOf(PublicationKey))) else []
    case Source =>
      (if row.published.Some? then Listed(Prior(prev, ArtifactOf(PublicationKey))) else [])
      + Listed(Prior(prev, ArtifactOf(SourceKey)))
    case _ => []
  }

  /** The carriers that may hold another link of the object under a purpose. */
  function Siblings(purpose: Purpose): seq<Key> {
    match purpose
    case Source => [SourceKey, PublicationKey]
    case Destination => [PublicationKey]
    case ArtifactOf(PublicationKey) => [RollbackKey]
    case _ => []
  }

  /** The link in this carrier was discarded between the two rows, as its receipt allows. */
  predicate LinkRemovedAt(prev: ProofSet, row: Row, native: Native, absent: set<Purpose>, key: Key) {
    var artifact := Prior(prev.objects, ArtifactOf(key));
    var before, after := CarrierAt(prev.row, key), CarrierAt(row, key);
    && prev.row.RescanRow? && row.RescanRow?
    && artifact.Some? && artifact.value.native == native && ArtifactOf(key) in absent
    && DiscardingNow(before, after)
    && (if key == SourceKey then before.value.receipt.Some? && after.value.receipt == before.value.receipt
        else prev.row.published.Some? && row.published == prev.row.published)
  }

  predicate DiscardLinkRemoved(prev: ProofSet, row: Row, native: Native, purpose: Purpose, absent: set<Purpose>) {
    exists i :: 0 <= i < |Siblings(purpose)| && LinkRemovedAt(prev, row, native, absent, Siblings(purpose)[i])
  }

  predicate RescanNlinkOk(prev: ProofSet, row: Row, matched: Obj, obj: Obj, absent: set<Purpose>)
    requires prev.row.RescanRow? && row.RescanRow?
  {
    var before, after, purpose := matched.fields.nlink, obj.fields.nlink, obj.purpose;
    var removed := DiscardLinkRemoved(prev, row, matched.native, purpose, absent);
    && (removed ==> Moved(before, after, -1))
    && (|| Persists(before, after)
        || ((purpose == Source || purpose == ArtifactOf(SourceKey))
            && RestoredNow(CarrierAt(prev.row, SourceKey), CarrierAt(row, SourceKey)) && Moved(before, after, 1))
        || removed
        || ((purpose == Source || purpose == Destination || purpose == ArtifactOf(PublicationKey))
            && matched.purpose == ArtifactOf(PublicationKey)
            && prev.row.published.None? && row.published.Some? && Moved(before, after, 1)))
  }

  /** A role nobody held before: a carrier just allocated, or the file a carrier is to receive. */
  predicate RescanBirth(before: Row, row: Row, purpose: Purpose)
    requires before.RescanRow? && row.RescanRow?
  {
    match purpose
    case CarrierOf(key) => CarrierAt(before, key).None? && CarrierAt(row, key).Some?
      && CarrierAt(row, key).value.phase == Allocated
    case MarkerOf(key) => CarrierAt(before, key).None? && CarrierAt(row, key).Some?
      && CarrierAt(row, key).value.phase == Allocated
    case ArtifactOf(key) =>
      && (key == StageKey || key == PublicationKey) && key !in before.known
      && CarrierAt(row, key).Some? && CarrierAt(row, key).value.phase == Allocated
    case _ => false
  }

  // ----- Deletion claims -----

  function DeletionCandidates(prev: ProofSet, row: Row, purpose: Purpose): seq<Obj>
    requires prev.row.DeletionRow? && row.DeletionRow?
  {
    var before := prev.row.record;
    Listed(Prior(prev.objects, purpose))
    + (if purpose == DeleteArtifact && before.Some? && before.value.phase == Claiming
       then Listed(Prior(prev.objects, if prev.row.fromTarget then Target else Claim)) else [])
    + (if purpose == Target && RestoredNow(before, row.record) then Listed(Prior(prev.objects, DeleteArtifact)) else [])
  }

  predicate DeletionNlinkOk(prev: ProofSet, row: Row, matched: Obj, obj: Obj, absent: set<Purpose>)
    requires prev.row.DeletionRow? && row.DeletionRow?
  {
    var before, after := matched.fields.nlink, obj.fields.nlink;
    || Persists(before, after)
    || (RestoredNow(prev.row.record, row.record) && Moved(before, after, 1))
    || (obj.purpose == Target && DeleteArtifact in absent && DiscardingNow(prev.row.record, row.record)
        && row.record.value.receipt.Some? && row.record.value.receipt == prev.row.record.value.receipt
        && Moved(before, after, -1))
  }

  predicate DeletionBirth(before: Row, row: Row, purpose: Purpose)
    requires before.DeletionRow? && row.DeletionRow?
  {
    && (purpose == DeleteCarrier || purpose == DeleteMarker)
    && before.record.None? && row.record.Some? && row.record.value.phase == Allocated
  }

  // ----- One object from one set to the next -----

  /** The object the captured one is recognised as, if any. */
  function MatchedIn(prev: ProofSet, row: Row, obj: Obj): Option<Obj> {
    match (prev.row, row)
    case (RescanRow(_, _, _, _, _), RescanRow(_, _, _, _, _)) =>
      Match(RescanCandidates(prev.objects, row, obj.purpose), obj.native)
    case (DeletionRow(_, _, _, _), DeletionRow(_, _, _, _)) =>
      Match(DeletionCandidates(prev, row, obj.purpose), obj.native)
    case (NamespaceRow, NamespaceRow) => Match(Listed(Prior(prev.objects, obj.purpose)), obj.native)
    case _ => None
  }

  predicate FieldsOk(prev: ProofSet, row: Row, matched: Obj, obj: Obj, absent: set<Purpose>) {
    OthersPersist(matched.fields, obj.fields) &&
    match (prev.row, row)
    case (RescanRow(_, _, _, _, _), RescanRow(_, _, _, _, _)) => RescanNlinkOk(prev, row, matched, obj, absent)
    case (DeletionRow(_, _, _, _), DeletionRow(_, _, _, _)) => DeletionNlinkOk(prev, row, matched, obj, absent)
    case _ => Persists(matched.fields.nlink, obj.fields.nlink)
  }

  predicate BirthOk(prev: ProofSet, row: Row, obj: Obj) {
    match (prev.row, row)
    case (RescanRow(_, _, _, _, _), RescanRow(_, _, _, _, _)) =>
      Prior(prev.objects, obj.purpose).None? && RescanBirth(prev.row, row, obj.purpose)
    case (DeletionRow(_, _, _, _), DeletionRow(_, _, _, _)) => DeletionBirth(prev.row, row, obj.purpose)
    case _ => false
  }

  predicate Transition(prev: ProofSet, row: Row, obj: Obj, absent: set<Purpose>) {
    var matched := MatchedIn(prev, row, obj);
    if matched.Some? then FieldsOk(prev, row, matched.value, obj, absent) else BirthOk(prev, row, obj)
  }

  // ----- Absences and completeness -----

  predicate PhaseIn(c: Option<Carrier>, phases: set<Phase>) { c.Some? && c.value.phase in phases }

  predicate AbsentAllowed(row: Row, purpose: Purpose) {
    match row
    case DeletionRow(record, _, targetPresent, state) => (
      match purpose
      case Claim => true
      case Target =>
        !targetPresent || state == "completed" || PhaseIn(record, {Claiming, Claimed, Restoring, Discarding, Discarded})
      case _ =>
        || PhaseIn(record, {Discarded})
        || (purpose == DeleteArtifact && PhaseIn(record, {Allocated, Claiming, Discarding})))
    case RescanRow(_, published, known, samePath, _) =>
      if purpose == Destination || (purpose == Source && samePath && published.Some?) then
        published.None? || PhaseIn(CarrierAt(row, RollbackKey), {Claiming, Claimed, Discarding, Discarded})
      else (
        match purpose
        case Source => PhaseIn(CarrierAt(row, SourceKey), {Claiming, Claimed, Restoring, Discarding, Discarded})
        case CarrierOf(key) => PhaseIn(CarrierAt(row, key), {Discarded})
        case MarkerOf(key) => PhaseIn(CarrierAt(row, key), {Discarded})
        case ArtifactOf(key) =>
          || PhaseIn(CarrierAt(row, key), {Discarded, Claiming, Discarding})
          || (PhaseIn(CarrierAt(row, key), {Allocated}) && (key == SourceKey || key !in known))
          || (key == PublicationKey && PhaseIn(CarrierAt(row, key), {Restoring}) && published.Some?)
        case _ => false)
    case NamespaceRow => false
  }

  predicate Present(objects: seq<Obj>, purpose: Purpose)
  {
    exists i :: 0 <= i < |objects| && objects[i].purpose == purpose
  }

  /** The set still holds the file the claim is about. */
  predicate Complete(row: Row, objects: seq<Obj>) {
    match row
    case DeletionRow(record, _, targetPresent, state) =>
      || !targetPresent || state == "completed"
      || Present(objects, Target) || Present(objects, Claim) || Present(objects, DeleteArtifact)
      || PhaseIn(record, {Discarding, Discarded})
    case RescanRow(_, published, _, samePath, state) =>
      && (!Present(objects, Source) && !Present(objects, ArtifactOf(SourceKey)) ==>
            (state == "db_committed" || state == "completed")
              && PhaseIn(CarrierAt(row, SourceKey), {Discarding, Discarded}))
      && (published.Some? && !Present(objects, if samePath then Source else Destination) ==>
            CarrierAt(row, RollbackKey).Some? &&
            (Present(objects, ArtifactOf(RollbackKey))
              || PhaseIn(CarrierAt(row, RollbackKey), {Discarding, Discarded})))
    case NamespaceRow => true
  }

  // ----- What a transition means -----

  predicate Captured(prev: ProofSet, next: ProofSet) {
    forall i :: 0 <= i < |next.objects| ==> Transition(prev, next.row, next.objects[i], next.absent)
  }

  /** A receipt was recorded between the two rows: of a restoration or of the publication. */
  predicate Acknowledged(before: Row, after: Row) {
    match (before, after)
    case (RescanRow(_, _, _, _, _), RescanRow(_, _, _, _, _)) =>
      RestoredNow(CarrierAt(before, SourceKey), CarrierAt(after, SourceKey))
        || (before.published.None? && after.published.Some?)
    case (DeletionRow(_, _, _, _), DeletionRow(_, _, _, _)) => RestoredNow(before.record, after.record)
    case _ => false
  }

  /** The set enrols this native object as what the carrier of a deletion holds. */
  predicate Carried(before: ProofSet, native: Native) {
    var artifact := Prior(before.objects, DeleteArtifact);
    artifact.Some? && artifact.value.native == native
  }

  /** A deletion discards its artifact, now absent, and keeps the receipt of its restoration. */
  predicate DeletionDiscards(prev: ProofSet, next: ProofSet) {
    && prev.row.DeletionRow? && next.row.DeletionRow? && DeleteArtifact in next.absent
    && DiscardingNow(prev.row.record, next.row.record)
    && next.row.record.value.receipt.Some? && next.row.record.value.receipt == prev.row.record.value.receipt
  }

  /** A carrier that the set before enrols as holding the object gave up its link to it. */
  predicate LinkDiscarded(prev: ProofSet, next: ProofSet, native: Native) {
    || (DeletionDiscards(prev, next) && Carried(prev, native))
    || exists key: Key :: LinkRemovedAt(prev, next.row, native, next.absent, key)
  }

  /** A deletion is discarding, but the set before enrols no artifact that held the object: the
      loss of a link is admitted all the same. */
  predicate LossUnaccounted(prev: ProofSet, next: ProofSet, native: Native) {
    DeletionDiscards(prev, next) && !Carried(prev, native)
  }

  /** The same native object, every enrolled constraint as it was, and the link count moved by
      at most one: up only with a receipt, down only with a discard or unaccounted for. */
  predicate StepFrom(prev: ProofSet, next: ProofSet, m: Obj, obj: Obj) {
    && m in prev.objects && m.native == obj.native && OthersPersist(m.fields, obj.fields)
    && (|| Persists(m.fields.nlink, obj.fields.nlink)
        || (Moved(m.fields.nlink, obj.fields.nlink, 1) && Acknowledged(prev.row, next.row))
        || (Moved(m.fields.nlink, obj.fields.nlink, -1)
            && (LinkDiscarded(prev, next, m.native) || LossUnaccounted(prev, next, m.native))))
  }

  lemma {:induction false} PriorMember(objects: seq<Obj>, purpose: Purpose)
    ensures Prior(objects, purpose).Some? ==> Prior(objects, purpose).value in objects
  {
    if objects != [] { PriorMember(objects[..|objects| - 1], purpose); }
  }

  lemma {:induction false} MatchMember(candidates: seq<Obj>, native: Native)
    ensures Match(candidates, native).Some? ==>
      Match(candidates, native).value in candidates && Match(candidates, native).value.native == native
  {
    if candidates != [] { MatchMember(candidates[1..], native); }
  }

  lemma MatchAmong(prev: seq<Obj>, candidates: seq<Obj>, native: Native)
    requires forall o :: o in candidates ==> o in prev
    ensures
      var m := Match(candidates, native);
      m.Some? ==> m.value in prev && m.value.native == native
  {
    MatchMember(candidates, native);
  }

  lemma ListedMember(prev: seq<Obj>, purpose: Purpose)
    ensures forall o :: o in Listed(Prior(prev, purpose)) ==> o in prev
  {
    PriorMember(prev, purpose);
  }

  lemma RescanMember(prev: seq<Obj>, row: Row, purpose: Purpose)
    requires row.RescanRow?
    ensures forall o :: o in RescanCandidates(prev, row, purpose) ==> o in prev
  {
    hide Prior;
    ListedMember(prev, purpose);
    ListedMember(prev, Source);
    ListedMember(prev, Destination);
    ListedMember(prev, ArtifactOf(PublicationKey));
    ListedMember(prev, ArtifactOf(SourceKey));
  }

  lemma DeletionMember(prev: ProofSet, row: Row, purpose: Purpose)
    requires prev.row.DeletionRow? && row.DeletionRow?
    ensures forall o :: o in DeletionCandidates(prev, row, purpose) ==> o in prev.objects
  {
    hide Prior;
    ListedMember(prev.objects, purpose);
    ListedMember(prev.objects, Target);
    ListedMember(prev.objects, Claim);
    ListedMember(prev.objects, DeleteArtifact);
  }

  lemma MatchedMember(prev: ProofSet, row: Row, obj: Obj)
    ensures
      var m := MatchedIn(prev, row, obj);
      m.Some? ==> m.value in prev.objects && m.value.native == obj.native
  {
    hide Prior;
    hide Match;
    hide RescanCandidates;
    hide DeletionCandidates;
    match (prev.row, row)
    case (RescanRow(_, _, _, _, _), RescanRow(_, _, _, _, _)) =>
      RescanMember(prev.objects, row, obj.purpose);
      MatchAmong(prev.objects, RescanCandidates(prev.objects, row, obj.purpose), obj.native);
    case (DeletionRow(_, _, _, _), DeletionRow(_, _, _, _)) =>
      DeletionMember(prev, row, obj.purpose);
      MatchAmong(prev.objects, DeletionCandidates(prev, row, obj.purpose), obj.native);
    case (NamespaceRow, NamespaceRow) =>
      ListedMember(prev.objects, obj.purpose);
      MatchAmong(prev.objects, Listed(Prior(prev.objects, obj.purpose)), obj.native);
    case _ =>
  }

  /** What a capture accepts is a continuation of some object of the set before, or a birth
      that the journal acknowledges. */
  lemma TransitionMeans(prev: ProofSet, next: ProofSet, obj: Obj)
    requires Transition(prev, next.row, obj, next.absent)
    ensures BirthOk(prev, next.row, obj) || exists m :: StepFrom(prev, next, m, obj)
  {
    hide MatchedIn;
    hide BirthOk;
    MatchedMember(prev, next.row, obj);
    var matched := MatchedIn(prev, next.row, obj);
    if matched.Some? {
      FieldsMean(prev, next, matched.value, obj);
      assert StepFrom(prev, next, matched.value, obj);
    }
  }

  lemma FieldsMean(prev: ProofSet, next: ProofSet, m: Obj, obj: Obj)
    requires m in prev.objects && m.native == obj.native && FieldsOk(prev, next.row, m, obj, next.absent)
    ensures StepFrom(prev, next, m, obj)
  {
    hide OthersPersist;
    hide LinkRemovedAt;
    hide Carried;
  }

  predicate LosesLink(m: Obj, obj: Obj) {
    m.fields.nlink.Some? && obj.fields.nlink.Some? && obj.fields.nlink.value < m.fields.nlink.value
  }

  /** A rescan never loses a link but by a discard of a carrier that held it. A deletion does
      so exactly when the set before enrols the object as its artifact, which the code does not
      look at. */
  lemma LossIsDiscard(prev: ProofSet, next: ProofSet, obj: Obj)
    requires Transition(prev, next.row, obj, next.absent) && MatchedIn(prev, next.row, obj).Some?
    requires LosesLink(MatchedIn(prev, next.row, obj).value, obj)
    ensures LinkDiscarded(prev, next, obj.native) <==> (next.row.DeletionRow? ==> Carried(prev, obj.native))
  {
    hide MatchedIn;
    hide OthersPersist;
    hide LinkRemovedAt;
    hide Carried;
    MatchedMember(prev, next.row, obj);
    NoRescanInDeletion(prev, next, obj.native);
  }

  lemma NoRescanInDeletion(prev: ProofSet, next: ProofSet, native: Native)
    ensures next.row.DeletionRow? ==> forall key: Key :: !LinkRemovedAt(prev, next.row, native, next.absent, key)
  {
    hide Prior;
  }

  // ----- Chains of proof sets -----

  predicate ChainOk(c: seq<ProofSet>) { forall k :: 0 < k < |c| ==> Captured(c[k - 1], c[k]) }

  /** One object followed through consecutive sets, from set `j` on. */
  predicate Lineage(c: seq<ProofSet>, j: nat, path: seq<Obj>) {
    && path != [] && j + |path| <= |c| && path[0] in c[j].objects
    && forall i :: 0 < i < |path| ==> StepFrom(c[j + i - 1], c[j + i], path[i - 1], path[i])
  }

  /** Enrolled at the start, or born in a step the journal acknowledges. */
  predicate Origin(c: seq<ProofSet>, j: nat, o: Obj)
    requires j < |c|
  {
    j == 0 || BornAt(c, j, o)
  }

  predicate BornAt(c: seq<ProofSet>, j: nat, o: Obj)
    requires 0 < j < |c|
  {
    BirthOk(c[j - 1], c[j].row, o)
  }

  /** Every object of every set goes back, as the same native object, to the first set or to
      an acknowledged birth. */
  lemma {:induction false} EveryObjectHasOrigin(c: seq<ProofSet>, k: nat, obj: Obj) returns (j: nat, path: seq<Obj>)
    requires ChainOk(c) && k < |c| && obj in c[k].objects
    ensures Lineage(c, j, path) && j + |path| == k + 1 && path[|path| - 1] == obj && Origin(c, j, path[0])
    decreases k
  {
    hide Transition;
    hide StepFrom;
    hide BirthOk;
    j, path := k, [obj];
    if k > 0 && !BirthOk(c[k - 1], c[k].row, obj) {
      assert Captured(c[k - 1], c[k]);
      TransitionMeans(c[k - 1], c[k], obj);
      var m :| StepFrom(c[k - 1], c[k], m, obj);
      StepMember(c[k - 1], c[k], m, obj);
      var from, before := EveryObjectHasOrigin(c, k - 1, m);
      j, path := from, before + [obj];
    }
  }

  lemma StepMember(prev: ProofSet, next: ProofSet, m: Obj, obj: Obj)
    requires StepFrom(prev, next, m, obj)
    ensures m in prev.objects
  {
  }

  /** How many of the steps from set `j` recorded a receipt. */
  function Receipts(c: seq<ProofSet>, j: nat, n: nat): nat
    requires j + n < |c|
  {
    if n == 0 then 0 else Receipts(c, j, n - 1) + if Acknowledged(c[j + n - 1].row, c[j + n].row) then 1 else 0
  }

  /** How many of the steps from set `j` discarded a link to this native object. */
  function Discards(c: seq<ProofSet>, j: nat, n: nat, native: Native): nat
    requires j + n < |c|
  {
    if n == 0 then 0 else Discards(c, j, n - 1, native) + if LinkDiscarded(c[j + n - 1], c[j + n], native) then 1 else 0
  }

  /** How many of the steps from set `j` admit the loss of a link that no enrolled artifact held. */
  function Unaccounted(c: seq<ProofSet>, j: nat, n: nat, native: Native): nat
    requires j + n < |c|
  {
    if n == 0 then 0
    else Unaccounted(c, j, n - 1, native) + if LossUnaccounted(c[j + n - 1], c[j + n], native) then 1 else 0
  }

  /** Along a lineage nothing enrolled ever changes but the link count. That rises at most once
      a receipt, and falls at most once a discard of a carrier that held the object and once a
      discarding step of a deletion whose set before enrols no such carrier. */
  lemma {:induction false} LineageKeeps(c: seq<ProofSet>, j: nat, path: seq<Obj>, n: nat)
    requires Lineage(c, j, path) && n < |path|
    ensures path[n].native == path[0].native && OthersPersist(path[0].fields, path[n].fields)
    ensures
      var first, last, native := path[0].fields.nlink, path[n].fields.nlink, path[0].native;
      first.Some? ==>
        && last.Some? && last.value <= first.value + Receipts(c, j, n)
        && first.value - Discards(c, j, n, native) - Unaccounted(c, j, n, native) <= last.value
    decreases n
  {
    hide Acknowledged;
    hide LinkDiscarded;
    hide LossUnaccounted;
    if n > 0 {
      LineageKeeps(c, j, path, n - 1);
      assert StepFrom(c[j + n - 1], c[j + n], path[n - 1], path[n]);
    }
  }

  /** Every loss is accounted for exactly when each discarding step of a deletion starts from a
      set that enrols the object as the artifact. */
  lemma {:induction false} AccountedExactly(c: seq<ProofSet>, j: nat, n: nat, native: Native)
    requires j + n < |c|
    ensures Unaccounted(c, j, n, native) == 0 <==>
      forall i :: j <= i < j + n && DeletionDiscards(c[i], c[i + 1]) ==> Carried(c[i], native)
    decreases n
  {
    hide DeletionDiscards;
    hide Carried;
    if n > 0 { AccountedExactly(c, j, n - 1, native); }
  }

  // ----- A loss that no discard accounts for -----

  function Withdrawn(phase: Phase): Row { DeletionRow(Some(Carrier(phase, Some("receipt"))), true, true, "active") }

  function Links(purpose: Purpose, n: int): Obj {
    Obj(purpose, "native", Fields(Some(1), None, None, None, None, None, Some(n)))
  }

  /** The artifact goes in the first step; the second step finds one more link gone. */
  function TwoLosses(): seq<ProofSet> {
    [ProofSet(Withdrawn(Discarding), [Links(Target, 3), Links(DeleteArtifact, 3)], {}),
     ProofSet(Withdrawn(Discarding), [Links(Target, 2)], {DeleteArtifact}),
     ProofSet(Withdrawn(Discarded), [Links(Target, 1)], {DeleteArtifact})]
  }

  /** Complete sets with allowed absences form a chain in which one discard is followed by the
      loss of two links: the second step starts from a set without the artifact. */
  lemma LossWithoutDiscard()
    ensures
      var c, path := TwoLosses(), [Links(Target, 3), Links(Target, 2), Links(Target, 1)];
      && ChainOk(c) && Lineage(c, 0, path)
      && (forall k :: 0 <= k < 3 ==> Complete(c[k].row, c[k].objects))
      && (forall k, p :: 0 <= k < 3 && p in c[k].absent ==> AbsentAllowed(c[k].row, p))
      && Discards(c, 0, 2, "native") == 1 && Unaccounted(c, 0, 2, "native") == 1
  {
    hide Captured;
    hide StepFrom;
    hide LinkDiscarded;
    hide LossUnaccounted;
    var c := TwoLosses();
    FirstLoss(c[0], c[1]);
    SecondLoss(c[1], c[2]);
    forall k | 0 <= k < 3 ensures Complete(c[k].row, c[k].objects) { assert c[k].objects[0].purpose == Target; }
  }

  lemma FirstLoss(prev: ProofSet, next: ProofSet)
    requires prev == TwoLosses()[0] && next == TwoLosses()[1]
    ensures Captured(prev, next) && StepFrom(prev, next, Links(Target, 3), Links(Target, 2))
    ensures LinkDiscarded(prev, next, "native") && !LossUnaccounted(prev, next, "native")
  {
    assert prev.objects[..1] == [Links(Target, 3)];
    assert Prior(prev.objects, Target) == Some(Links(Target, 3));
    NoRescanInDeletion(prev, next, "native");
    assert MatchedIn(prev, next.row, Links(Target, 2)) == Some(Links(Target, 3));
  }

  lemma SecondLoss(prev: ProofSet, next: ProofSet)
    requires prev == TwoLosses()[1] && next == TwoLosses()[2]
    ensures Captured(prev, next) && StepFrom(prev, next, Links(Target, 2), Links(Target, 1))
    ensures !LinkDiscarded(prev, next, "native") && LossUnaccounted(prev, next, "native")
  {
    assert Prior(prev.objects, Target) == Some(Links(Target, 2));
    assert prev.objects[..0] == [];
    assert Prior(prev.objects, DeleteArtifact) == None;
    NoRescanInDeletion(prev, next, "native");
    assert MatchedIn(prev, next.row, Links(Target, 1)) == Some(Links(Target, 2));
  }

  /** Over steps that acknowledge no birth, no native object appears that was not there. */
  lemma NothingAppears(c: seq<ProofSet>, k: nat, obj: Obj)
    requires ChainOk(c) && k < |c| && obj in c[k].objects
    requires forall i, o :: 0 < i < |c| ==> !BornAt(c, i, o)
    ensures exists o :: o in c[0].objects && o.native == obj.native
  {
    hide BirthOk;
    hide StepFrom;
    var j, path := EveryObjectHasOrigin(c, k, obj);
    LineageKeeps(c, j, path, |path| - 1);
  }

  // ----- Capturing a set -----

  const MAX_HASH_BYTES := 64 * 1024 * 1024 * 1024
  const MAX_WIRE_BYTES := 16 * 1024 * 1024

  /** What opening a role's path finds: nothing, or an object with its native handle and
      constraints, the bytes to hash unless it is a directory, the size of its entry in the
      set, and whether policy, device and journal fingerprints agree. */
  datatype Find = Missing | Found(native: Native, fields: Fields, hashed: Option<nat>, wire: nat, agrees: bool)

  function ObjectsOf(specs: seq<Purpose>, finds: seq<Find>): seq<Obj>
    requires |specs| == |finds|
  {
    if specs == [] then []
    else
      var n := |specs| - 1;
      ObjectsOf(specs[..n], finds[..n])
      + if finds[n].Found? then [Obj(specs[n], finds[n].native, finds[n].fields)] else []
  }

  function AbsentOf(specs: seq<Purpose>, finds: seq<Find>): set<Purpose>
    requires |specs| == |finds|
  {
    set i | 0 <= i < |specs| && finds[i].Missing? :: specs[i]
  }

  predicate IsHashed(f: Find) { f.Found? && f.hashed.Some? }

  predicate AnyHashed(finds: seq<Find>) { exists i :: 0 <= i < |finds| && IsHashed(finds[i]) }

  function HashedBy(finds: seq<Find>): nat {
    if finds == [] then 0
    else HashedBy(finds[..|finds| - 1]) + if IsHashed(finds[|finds| - 1]) then finds[|finds| - 1].hashed.value else 0
  }

  function WiredBy(finds: seq<Find>): nat {
    if finds == [] then 0
    else WiredBy(finds[..|finds| - 1]) + if finds[|finds| - 1].Found? then finds[|finds| - 1].wire else 0
  }

  /** Each role is there and agrees with the journal, or may be absent in this phase. */
  predicate FindsOk(row: Row, specs: seq<Purpose>, finds: seq<Find>)
    requires |specs| == |finds|
  {
    forall i :: 0 <= i < |specs| ==> if finds[i].Found? then finds[i].agrees else AbsentAllowed(row, specs[i])
  }

  predicate TransitionsOk(previous: Option<ProofSet>, row: Row, objects: seq<Obj>, absent: set<Purpose>) {
    previous.Some? ==> forall i :: 0 <= i < |objects| ==> Transition(previous.value, row, objects[i], absent)
  }

  /** What the shared budget of a capture has been charged. */
  class CaptureBudget {
    var hashBytes: nat
    var wireBytes: nat

    constructor ()
      ensures hashBytes == 0 && wireBytes == 0
    {
      hashBytes, wireBytes := 0, 0;
    }
  }

  lemma CountsGrow(finds: seq<Find>, k: nat)
    requires k < |finds|
    ensures HashedBy(finds[..k + 1]) == HashedBy(finds[..k]) + if IsHashed(finds[k]) then finds[k].hashed.value else 0
    ensures WiredBy(finds[..k + 1]) == WiredBy(finds[..k]) + if finds[k].Found? then finds[k].wire else 0
  {
    assert finds[..k + 1][..k] == finds[..k];
  }

  lemma {:induction false} CountsMonotone(finds: seq<Find>, k: nat)
    requires k <= |finds|
    ensures HashedBy(finds[..k]) <= HashedBy(finds) && WiredBy(finds[..k]) <= WiredBy(finds)
    decreases |finds| - k
  {
    if k == |finds| {
      assert finds[..k] == finds;
    } else {
      CountsGrow(finds, k);
      CountsMonotone(finds, k + 1);
    }
  }

  lemma ObjectsGrow(specs: seq<Purpose>, finds: seq<Find>, k: nat)
    requires |specs| == |finds| && k < |specs|
    ensures ObjectsOf(specs[..k + 1], finds[..k + 1]) ==
            ObjectsOf(specs[..k], finds[..k])
            + if finds[k].Found? then [Obj(specs[k], finds[k].native, finds[k].fields)] else []
    ensures AbsentOf(specs[..k + 1], finds[..k + 1]) ==
            AbsentOf(specs[..k], finds[..k]) + if finds[k].Missing? then {specs[k]} else {}
  {
    assert specs[..k + 1][..k] == specs[..k] && finds[..k + 1][..k] == finds[..k];
    forall p | p in AbsentOf(specs[..k], finds[..k]) ensures p in AbsentOf(specs[..k + 1], finds[..k + 1]) {
      var i :| 0 <= i < k && finds[..k][i].Missing? && specs[..k][i] == p;
      assert finds[..k + 1][i].Missing? && specs[..k + 1][i] == p;
    }
    if finds[k].Missing? {
      assert finds[..k + 1][k].Missing? && specs[..k + 1][k] == specs[k];
    }
  }

  /** Whatever chain ends in the one set, the other continues it. */
  ghost predicate Extends(last: ProofSet, next: ProofSet) {
    forall c :: c != [] && c[|c| - 1] == last && ChainOk(c) ==> ChainOk(c + [next])
  }

  lemma CaptureExtends(last: ProofSet, next: ProofSet)
    requires Captured(last, next)
    ensures Extends(last, next)
  {
    hide Captured;
    forall c: seq<ProofSet> | c != [] && c[|c| - 1] == last && ChainOk(c) ensures ChainOk(c + [next]) {
      forall k | 0 < k < |c + [next]| ensures Captured((c + [next])[k - 1], (c + [next])[k]) {
        if k < |c| { assert Captured(c[k - 1], c[k]); }
      }
    }
  }

  /** The whole set is captured or nothing is: every role as found, every transition from the
      set before accepted, nothing the phase needs lost, and both budgets kept. The set continues
      every chain that ends in the one before. */
  method CaptureSet(row: Row, specs: seq<Purpose>, finds: seq<Find>, previous: Option<ProofSet>, envelope: nat,
          budget: CaptureBudget)
    returns (r: Option<ProofSet>)
    requires |specs| == |finds|
    modifies budget
    ensures r.Some? <==>
      && FindsOk(row, specs, finds)
      && TransitionsOk(previous, row, ObjectsOf(specs, finds), AbsentOf(specs, finds))
      && Complete(row, ObjectsOf(specs, finds))
      && (AnyHashed(finds) ==> old(budget.hashBytes) + HashedBy(finds) <= 68_719_476_736)
      && old(budget.wireBytes) + WiredBy(finds) + envelope <= 16_777_216
    ensures r.Some? ==> r.value == ProofSet(row, ObjectsOf(specs, finds), AbsentOf(specs, finds))
    ensures r.Some? && previous.Some? ==> Extends(previous.value, r.value)
    ensures r.Some? ==> budget.hashBytes == old(budget.hashBytes) + HashedBy(finds)
    ensures r.Some? ==> budget.wireBytes == old(budget.wireBytes) + WiredBy(finds) + envelope
  {
    hide Extends;
    hide Transition;
    hide Complete;
    hide AbsentAllowed;
    hide ObjectsOf;
    hide AbsentOf;
    hide HashedBy;
    hide WiredBy;
    var objects: seq<Obj> := [];
    var absent: set<Purpose> := {};
    NothingFound(specs, finds);
    var k := 0;
    while k < |specs|
      invariant 0 <= k <= |specs|
      invariant objects == ObjectsOf(specs[..k], finds[..k]) && absent == AbsentOf(specs[..k], finds[..k])
      invariant forall i :: 0 <= i < k ==> if finds[i].Found? then finds[i].agrees else AbsentAllowed(row, specs[i])
      invariant budget.hashBytes == old(budget.hashBytes) + HashedBy(finds[..k])
      invariant budget.wireBytes == old(budget.wireBytes) + WiredBy(finds[..k])
      invariant forall i :: 0 <= i < k && IsHashed(finds[i]) ==> budget.hashBytes <= MAX_HASH_BYTES
      decreases |specs| - k
    {
      CountsGrow(finds, k);
      CountsMonotone(finds, k + 1);
      ObjectsGrow(specs, finds, k);
      match finds[k] {
      case Found(native, fields, hashed, wire, agrees) =>
        if hashed.Some? {
          budget.hashBytes := budget.hashBytes + hashed.value;
          if budget.hashBytes > MAX_HASH_BYTES {
            assert IsHashed(finds[k]);
            return None;
          }
        }
        if !agrees { return None; }
        budget.wireBytes := budget.wireBytes + wire;
        if budget.wireBytes > MAX_WIRE_BYTES { return None; }
        objects := objects + [Obj(specs[k], native, fields)];
      case Missing =>
        if !AbsentAllowed(row, specs[k]) { return None; }
        absent := absent + {specs[k]};
      }
      k := k + 1;
    }
    assert specs[..k] == specs && finds[..k] == finds;
    if previous.Some? {
      for i := 0 to |objects|
        invariant forall j :: 0 <= j < i ==> Transition(previous.value, row, objects[j], absent)
      {
        if !Transition(previous.value, row, objects[i], absent) { return None; }
      }
    }
    if !Complete(row, objects) { return None; }
    budget.wireBytes := budget.wireBytes + envelope;
    if budget.wireBytes > MAX_WIRE_BYTES { return None; }
    r := Some(ProofSet(row, objects, absent));
    if previous.Some? { CaptureExtends(previous.value, r.value); }
  }

  lemma NothingFound(specs: seq<Purpose>, finds: seq<Find>)
    requires |specs| == |finds|
    ensures ObjectsOf(specs[..0], finds[..0]) == [] && AbsentOf(specs[..0], finds[..0]) == {}
    ensures HashedBy(finds[..0]) == 0 && WiredBy(finds[..0]) == 0
  {
  }
}

/** When a capture accepts an object, and what it may find missing: the rules by which native objects
    move between the names of a claim, told without the lists of candidates the code searches. */
module ClaimRules {
  import opened Claims
  import opened Text

  // ----- Controlled moves -----

  /** The object the set enrols for its purpose; a later entry replaces an earlier one. */
  ghost predicate Enrolled(objects: seq<Obj>, o: Obj) {
    exists i ::
      0 <= i < |objects| && objects[i] == o && forall j :: i < j < |objects| ==> objects[j].purpose != o.purpose
  }

  /** What a rescan's journal records of a carrier. */
  function Recorded(row: Row, key: Key): Option<Claims.Carrier>
    requires row.RescanRow?
  {
    if key in row.carriers then Some(row.carriers[key]) else None
  }

  /** The journal recorded the end of a restoration. */
  predicate Restores(before: Option<Claims.Carrier>, after: Option<Claims.Carrier>) {
    before == Some(Carrier(Restoring, None)) && after.Some? && after == Some(Carrier(Restored, after.value.receipt))
    && after.value.receipt != None
  }

  predicate Discards(before: Option<Claims.Carrier>, after: Option<Claims.Carrier>) {
    before.Some? && after.Some? && before.value.phase.Discarding?
    && (after.value.phase.Discarding? || after.value.phase.Discarded?)
  }

  /** A file under one name of a rescan may come from another of its names. The lower rank is
      preferred; an object that kept its name has rank zero. */
  ghost predicate RescanMove(prev: ProofSet, row: Row, from: Purpose, to: Purpose, rank: nat)
    requires row.RescanRow?
  {
    // The source is claimed into its carrier, or comes back out of it.
    || (from == Source && to == ArtifactOf(SourceKey) && rank == 1)
    || (from == ArtifactOf(SourceKey) && to == Source && rank == 2)
    // A published file was the publication's artifact.
    || (from == ArtifactOf(PublicationKey) && to in {Source, Destination} && rank == 1 && row.published.Some?)
    // What is rolled back was the destination, or the source where there is no destination.
    || (from == Destination && to == ArtifactOf(RollbackKey) && rank == 1)
    || (from == Source && to == ArtifactOf(RollbackKey) && rank == 1
        && forall o :: o in prev.objects ==> o.purpose != Destination)
  }

  predicate DeletionMove(prev: ProofSet, row: Row, from: Purpose, to: Purpose, rank: nat)
    requires prev.row.DeletionRow? && row.DeletionRow?
  {
    // The target, or the claim, is taken into the carrier while it is being claimed.
    || (from == (if prev.row.fromTarget then Target else Claim) && to == DeleteArtifact && rank == 1
        && prev.row.record.Some? && prev.row.record.value.phase == Claiming)
    // A restoration that just ended brings it back.
    || (from == DeleteArtifact && to == Target && rank == 1 && Restores(prev.row.record, row.record))
  }

  ghost predicate MayMove(prev: ProofSet, row: Row, from: Purpose, to: Purpose, rank: nat) {
    match (prev.row, row)
    case (RescanRow(_, _, _, _, _), RescanRow(_, _, _, _, _)) =>
      (from == to && rank == 0) || RescanMove(prev, row, from, to, rank)
    case (DeletionRow(_, _, _, _), DeletionRow(_, _, _, _)) =>
      (from == to && rank == 0) || DeletionMove(prev, row, from, to, rank)
    case (NamespaceRow, NamespaceRow) => from == to && rank == 0
    case _ => false
  }

  /** The object the set before holds, as the same native object, under a name it may have come
      from. */
  ghost predicate ComesFrom(prev: ProofSet, row: Row, obj: Obj, m: Obj, rank: nat) {
    Enrolled(prev.objects, m) && m.native == obj.native && MayMove(prev, row, m.purpose, obj.purpose, rank)
  }

  /** And the preferred one of these. */
  ghost predicate ContinuesFrom(prev: ProofSet, row: Row, obj: Obj, m: Obj) {
    exists rank :: ComesFrom(prev, row, obj, m, rank) && forall o, r :: ComesFrom(prev, row, obj, o, r) ==> rank <= r
  }

  // ----- The link count -----

  /** The carriers that may hold another link of what stands under a name. */
  predicate Sibling(purpose: Purpose, key: Key) {
    || (purpose == Source && (key == SourceKey || key == PublicationKey))
    || (purpose == Destination && key == PublicationKey)
    || (purpose == ArtifactOf(PublicationKey) && key == RollbackKey)
  }

  /** Between the two rows the carrier discarded the artifact it held, this native object, under the
      receipt that allows it. */
  ghost predicate GaveUp(prev: ProofSet, row: Row, key: Key, native: Native, absent: set<Purpose>)
    requires prev.row.RescanRow? && row.RescanRow?
  {
    && (exists a :: Enrolled(prev.objects, a) && a.purpose == ArtifactOf(key) && a.native == native)
    && ArtifactOf(key) in absent
    && Discards(Recorded(prev.row, key), Recorded(row, key))
    && (if key == SourceKey
        then Recorded(prev.row, key).value.receipt != None
          && Recorded(row, key).value.receipt == Recorded(prev.row, key).value.receipt
        else prev.row.published != None && row.published == prev.row.published)
  }

  /** By how much the journal allows the link count to move. */
  ghost predicate RescanDelta(prev: ProofSet, row: Row, m: Obj, obj: Obj, absent: set<Purpose>, delta: int)
    requires prev.row.RescanRow? && row.RescanRow?
  {
    if exists key: Key :: Sibling(obj.purpose, key) && GaveUp(prev, row, key, m.native, absent) then delta == -1
    else
      || delta == 0
      || (delta == 1 && obj.purpose in {Source, ArtifactOf(SourceKey)}
          && Restores(Recorded(prev.row, SourceKey), Recorded(row, SourceKey)))
      || (delta == 1 && m.purpose == ArtifactOf(PublicationKey)
          && obj.purpose in {Source, Destination, ArtifactOf(PublicationKey)}
          && prev.row.published == None && row.published != None)
  }

  predicate DeletionDelta(prev: ProofSet, row: Row, obj: Obj, absent: set<Purpose>, delta: int)
    requires prev.row.DeletionRow? && row.DeletionRow?
  {
    || delta == 0
    || (delta == 1 && Restores(prev.row.record, row.record))
    || (delta == -1 && obj.purpose == Target && DeleteArtifact in absent
        && Discards(prev.row.record, row.record)
        && row.record.value.receipt != None && row.record.value.receipt == prev.row.record.value.receipt)
  }

  ghost predicate MayDiffer(prev: ProofSet, row: Row, m: Obj, obj: Obj, absent: set<Purpose>, delta: int) {
    match (prev.row, row)
    case (RescanRow(_, _, _, _, _), RescanRow(_, _, _, _, _)) => RescanDelta(prev, row, m, obj, absent, delta)
    case (DeletionRow(_, _, _, _), DeletionRow(_, _, _, _)) => DeletionDelta(prev, row, obj, absent, delta)
    case _ => delta == 0
  }

  /** Every enrolled constraint is as it was, and the link count moved as the journal allows; a count
      that was not enrolled may become anything, unless it had to fall. */
  ghost predicate Agrees(prev: ProofSet, row: Row, m: Obj, obj: Obj, absent: set<Purpose>) {
    && (m.fields.inode == None || obj.fields.inode == m.fields.inode)
    && (m.fields.size == None || obj.fields.size == m.fields.size)
    && (m.fields.mtime == None || obj.fields.mtime == m.fields.mtime)
    && (m.fields.sha256 == None || obj.fields.sha256 == m.fields.sha256)
    && (m.fields.uid == None || obj.fields.uid == m.fields.uid)
    && (m.fields.mode == None || obj.fields.mode == m.fields.mode)
    && (m.fields.nlink == None ==> MayDiffer(prev, row, m, obj, absent, 0))
    && (m.fields.nlink != None ==>
          && obj.fields.nlink != None
          && MayDiffer(prev, row, m, obj, absent, obj.fields.nlink.value - m.fields.nlink.value))
  }

  // ----- Births -----

  /** A carrier and its marker are born when the carrier is allocated; the files of the stage and of
      the publication, before their fingerprints are known. */
  ghost predicate Born(prev: ProofSet, row: Row, obj: Obj) {
    match (prev.row, row)
    case (RescanRow(_, _, _, _, _), RescanRow(_, _, _, _, _)) =>
      && (forall o :: o in prev.objects ==> o.purpose != obj.purpose)
      && (exists key: Key ::
            && Recorded(row, key).Some? && Recorded(row, key).value.phase == Allocated
            && (|| (obj.purpose in {CarrierOf(key), MarkerOf(key)} && Recorded(prev.row, key) == None)
                || (obj.purpose == ArtifactOf(key) && key in {StageKey, PublicationKey} && key !in prev.row.known)))
    case (DeletionRow(_, _, _, _), DeletionRow(_, _, _, _)) =>
      obj.purpose in {DeleteCarrier, DeleteMarker} && prev.row.record == None
      && row.record.Some? && row.record.value.phase == Allocated
    case _ => false
  }

  // ----- The code finds exactly these -----

  /** The place of an enrolled object. */
  ghost predicate EnrolledAt(objects: seq<Obj>, o: Obj, i: nat) {
    i < |objects| && objects[i] == o && forall j :: i < j < |objects| ==> objects[j].purpose != o.purpose
  }

  lemma {:induction false} PriorAt(objects: seq<Obj>, purpose: Purpose) returns (i: nat)
    ensures Prior(objects, purpose).Some? ==>
      EnrolledAt(objects, Prior(objects, purpose).value, i) && Prior(objects, purpose).value.purpose == purpose
    ensures Prior(objects, purpose).None? ==> forall k :: 0 <= k < |objects| ==> objects[k].purpose != purpose
  {
    i := 0;
    if objects != [] {
      if objects[|objects| - 1].purpose == purpose {
        i := |objects| - 1;
      } else {
        i := PriorAt(objects[..|objects| - 1], purpose);
      }
    }
  }

  lemma PriorEnrolled(objects: seq<Obj>, purpose: Purpose)
    ensures Prior(objects, purpose).Some? ==>
      Enrolled(objects, Prior(objects, purpose).value) && Prior(objects, purpose).value.purpose == purpose
    ensures Prior(objects, purpose).None? ==> forall o :: o in objects ==> o.purpose != purpose
  {
    hide Prior;
    var i := PriorAt(objects, purpose);
  }

  lemma {:induction false} EnrolledPrior(objects: seq<Obj>, o: Obj)
    requires Enrolled(objects, o)
    ensures Prior(objects, o.purpose) == Some(o)
  {
    var init, last := objects[..|objects| - 1], objects[|objects| - 1];
    var i :| 0 <= i < |objects| && objects[i] == o && forall j :: i < j < |objects| ==> objects[j].purpose != o.purpose;
    if i < |init| {
      assert init[i] == o;
      EnrolledPrior(init, o);
    }
  }

  lemma PriorExactly(objects: seq<Obj>, purpose: Purpose)
    ensures forall o :: Prior(objects, purpose) == Some(o) <==> Enrolled(objects, o) && o.purpose == purpose
    ensures Prior(objects, purpose) == None <==> forall o :: o in objects ==> o.purpose != purpose
  {
    hide Enrolled;
    PriorEnrolled(objects, purpose);
    forall o | Enrolled(objects, o) && o.purpose == purpose ensures Prior(objects, purpose) == Some(o) {
      EnrolledPrior(objects, o);
    }
    PriorMember(objects, purpose);
  }

  lemma RestoresSame(before: Option<Claims.Carrier>, after: Option<Claims.Carrier>)
    ensures RestoredNow(before, after) <==> Restores(before, after)
    ensures DiscardingNow(before, after) <==> Discards(before, after)
  {
  }

  function Either(a: Option<Obj>, b: Option<Obj>): Option<Obj> { if a.Some? then a else b }

  function If(o: Option<Obj>, native: Native): Option<Obj> {
    if o.Some? && o.value.native == native then o else None
  }

  lemma MatchFirst(a: Option<Obj>, rest: seq<Obj>, native: Native)
    ensures Match(Listed(a) + rest, native) == Either(If(a, native), Match(rest, native))
  {
    if a.Some? { assert ([a.value] + rest)[1..] == rest; } else { assert [] + rest == rest; }
  }

  lemma MatchListed(a: Option<Obj>, native: Native)
    ensures Match(Listed(a), native) == If(a, native)
  {
    MatchFirst(a, [], native);
    assert Listed(a) + [] == Listed(a);
  }

  /** The enrolled object of a name, if it is this native object. */
  function Named(prev: ProofSet, purpose: Purpose, native: Native): Option<Obj> {
    If(Prior(prev.objects, purpose), native)
  }

  /** What the code matches, name by name. */
  lemma RescanMatched(prev: ProofSet, row: Row, obj: Obj)
    requires prev.row.RescanRow? && row.RescanRow?
    ensures
      var own := Named(prev, obj.purpose, obj.native);
      MatchedIn(prev, row, obj) == Either(own,
        match obj.purpose
        case ArtifactOf(SourceKey) => Named(prev, Source, obj.native)
        case ArtifactOf(RollbackKey) =>
          Named(prev, if Prior(prev.objects, Destination).Some? then Destination else Source, obj.native)
        case Destination => if row.published.Some? then Named(prev, ArtifactOf(PublicationKey), obj.native) else None
        case Source =>
          Either(if row.published.Some? then Named(prev, ArtifactOf(PublicationKey), obj.native) else None,
                 Named(prev, ArtifactOf(SourceKey), obj.native))
        case _ => None)
  {
    hide Prior;
    hide Match;
    var own, to := Prior(prev.objects, obj.purpose), obj.purpose;
    var publication := if row.published.Some? then Prior(prev.objects, ArtifactOf(PublicationKey)) else None;
    var artifact, native := Prior(prev.objects, ArtifactOf(SourceKey)), obj.native;
    forall o ensures Match(Listed(own) + Listed(o), native) == Either(If(own, native), If(o, native)) {
      MatchFirst(own, Listed(o), native);
      MatchListed(o, native);
    }
    MatchFirst(own, Listed(publication) + Listed(artifact), native);
    MatchFirst(publication, Listed(artifact), native);
    MatchListed(artifact, native);
    assert Listed(None) == [] && Listed(own) + Listed(None) == Listed(own);
  }

  lemma DeletionMatched(prev: ProofSet, row: Row, obj: Obj)
    requires prev.row.DeletionRow? && row.DeletionRow?
    ensures
      var own := Named(prev, obj.purpose, obj.native);
      MatchedIn(prev, row, obj) == Either(own,
        if obj.purpose == DeleteArtifact && prev.row.record.Some? && prev.row.record.value.phase == Claiming
        then Named(prev, if prev.row.fromTarget then Target else Claim, obj.native)
        else if obj.purpose == Target && RestoredNow(prev.row.record, row.record)
        then Named(prev, DeleteArtifact, obj.native) else None)
  {
    hide Prior;
    hide Match;
    var own, to, native := Prior(prev.objects, obj.purpose), obj.purpose, obj.native;
    var first := if to == DeleteArtifact && prev.row.record.Some? && prev.row.record.value.phase == Claiming
                 then Prior(prev.objects, if prev.row.fromTarget then Target else Claim) else None;
    var second := if to == Target && RestoredNow(prev.row.record, row.record) then Prior(prev.objects, DeleteArtifact)
                  else None;
    MatchFirst(own, Listed(first) + Listed(second), native);
    MatchFirst(first, Listed(second), native);
    MatchListed(second, native);
    assert DeletionCandidates(prev, row, to) == Listed(own) + (Listed(first) + Listed(second));
  }

  lemma NamedComes(prev: ProofSet, row: Row, obj: Obj)
    ensures forall m, rank :: ComesFrom(prev, row, obj, m, rank) <==>
      Named(prev, m.purpose, obj.native) == Some(m) && MayMove(prev, row, m.purpose, obj.purpose, rank)
  {
    hide Prior;
    hide Enrolled;
    hide MayMove;
    forall m: Obj ensures Prior(prev.objects, m.purpose) == Some(m) <==> Enrolled(prev.objects, m) {
      PriorExactly(prev.objects, m.purpose);
    }
  }

  lemma NamedPurpose(prev: ProofSet, native: Native)
    ensures forall p: Purpose :: Named(prev, p, native).Some? ==>
      Named(prev, p, native).value.purpose == p && Named(prev, p, native).value.native == native
  {
    hide Prior;
    forall p: Purpose | Named(prev, p, native).Some? ensures Named(prev, p, native).value.purpose == p {
      PriorExactly(prev.objects, p);
    }
  }

  lemma NoneNamed(prev: ProofSet, purpose: Purpose)
    ensures Prior(prev.objects, purpose) == None <==> forall o :: o in prev.objects ==> o.purpose != purpose
  {
    PriorExactly(prev.objects, purpose);
  }

  lemma RescanContinues(prev: ProofSet, row: Row, obj: Obj)
    requires prev.row.RescanRow? && row.RescanRow?
    ensures forall m :: MatchedIn(prev, row, obj) == Some(m) <==> ContinuesFrom(prev, row, obj, m)
  {
    hide Prior;
    hide Match;
    hide ComesFrom;
    hide Enrolled;
    hide MatchedIn;
    NamedComes(prev, row, obj);
    NamedPurpose(prev, obj.native);
    NoneNamed(prev, Destination);
    RescanMatched(prev, row, obj);
    var own, to := Named(prev, obj.purpose, obj.native), obj.purpose;
    var source, artifact := Named(prev, Source, obj.native), Named(prev, ArtifactOf(SourceKey), obj.native);
    var published := Named(prev, ArtifactOf(PublicationKey), obj.native);
    if own.Some? {
      assert ComesFrom(prev, row, obj, own.value, 0);
    } else if to == ArtifactOf(SourceKey) && source.Some? {
      assert ComesFrom(prev, row, obj, source.value, 1);
    } else if to == ArtifactOf(RollbackKey) {
      var aside := Named(prev, if Prior(prev.objects, Destination).Some? then Destination else Source, obj.native);
      if aside.Some? { assert ComesFrom(prev, row, obj, aside.value, 1); }
    } else if to in {Source, Destination} && row.published.Some? && published.Some? {
      assert ComesFrom(prev, row, obj, published.value, 1);
    } else if to == Source && artifact.Some? {
      assert ComesFrom(prev, row, obj, artifact.value, 2);
    }
  }

  lemma DeletionContinues(prev: ProofSet, row: Row, obj: Obj)
    requires prev.row.DeletionRow? && row.DeletionRow?
    ensures forall m :: MatchedIn(prev, row, obj) == Some(m) <==> ContinuesFrom(prev, row, obj, m)
  {
    hide Prior;
    hide Match;
    hide ComesFrom;
    hide Enrolled;
    hide RestoredNow;
    hide Restores;
    hide MatchedIn;
    NamedComes(prev, row, obj);
    NamedPurpose(prev, obj.native);
    RestoresSame(prev.row.record, row.record);
    DeletionMatched(prev, row, obj);
    var own := Named(prev, obj.purpose, obj.native);
    var from := if prev.row.fromTarget then Target else Claim;
    var taken, restored := Named(prev, from, obj.native), Named(prev, DeleteArtifact, obj.native);
    if own.Some? {
      assert ComesFrom(prev, row, obj, own.value, 0);
      assert ContinuesFrom(prev, row, obj, own.value);
    } else if obj.purpose == DeleteArtifact && taken.Some? && prev.row.record.Some?
              && prev.row.record.value.phase == Claiming {
      assert ComesFrom(prev, row, obj, taken.value, 1);
    } else if obj.purpose == Target && restored.Some? && Restores(prev.row.record, row.record) {
      assert ComesFrom(prev, row, obj, restored.value, 1);
    }
  }

  /** What the code matches is the object continued, and it matches none exactly when there is none. */
  lemma MatchedExactly(prev: ProofSet, row: Row, obj: Obj)
    ensures forall m :: MatchedIn(prev, row, obj) == Some(m) <==> ContinuesFrom(prev, row, obj, m)
  {
    hide Prior;
    hide Match;
    hide ComesFrom;
    hide Enrolled;
    match (prev.row, row)
    case (RescanRow(_, _, _, _, _), RescanRow(_, _, _, _, _)) => RescanContinues(prev, row, obj);
    case (DeletionRow(_, _, _, _), DeletionRow(_, _, _, _)) => DeletionContinues(prev, row, obj);
    case (NamespaceRow, NamespaceRow) => NamespaceContinues(prev, row, obj);
    case _ => NamedComes(prev, row, obj);
  }

  lemma NamespaceContinues(prev: ProofSet, row: Row, obj: Obj)
    requires prev.row.NamespaceRow? && row.NamespaceRow?
    ensures forall m :: MatchedIn(prev, row, obj) == Some(m) <==> ContinuesFrom(prev, row, obj, m)
  {
    hide Prior;
    hide Match;
    hide ComesFrom;
    hide Enrolled;
    NamedComes(prev, row, obj);
    NamedPurpose(prev, obj.native);
    MatchListed(Prior(prev.objects, obj.purpose), obj.native);
    var own := Named(prev, obj.purpose, obj.native);
    if own.Some? { assert ComesFrom(prev, row, obj, own.value, 0); }
  }

  lemma GaveUpExactly(prev: ProofSet, row: Row, native: Native, absent: set<Purpose>, key: Key)
    requires prev.row.RescanRow? && row.RescanRow?
    ensures LinkRemovedAt(prev, row, native, absent, key) <==> GaveUp(prev, row, key, native, absent)
  {
    hide Prior;
    hide Enrolled;
    PriorExactly(prev.objects, ArtifactOf(key));
    RestoresSame(Recorded(prev.row, key), Recorded(row, key));
  }

  lemma RemovedExactly(prev: ProofSet, row: Row, native: Native, purpose: Purpose, absent: set<Purpose>)
    requires prev.row.RescanRow? && row.RescanRow?
    ensures DiscardLinkRemoved(prev, row, native, purpose, absent) <==>
      exists key: Key :: Sibling(purpose, key) && GaveUp(prev, row, key, native, absent)
  {
    hide LinkRemovedAt;
    hide GaveUp;
    GaveUpExactly(prev, row, native, absent, SourceKey);
    GaveUpExactly(prev, row, native, absent, PublicationKey);
    GaveUpExactly(prev, row, native, absent, RollbackKey);
    var siblings := Siblings(purpose);
    if key: Key :| Sibling(purpose, key) && GaveUp(prev, row, key, native, absent) {
      assert key == siblings[0] || (|siblings| > 1 && key == siblings[1]);
    }
  }

  lemma AgreesExactly(prev: ProofSet, row: Row, m: Obj, obj: Obj, absent: set<Purpose>)
    ensures FieldsOk(prev, row, m, obj, absent) <==> Agrees(prev, row, m, obj, absent)
  {
    hide DiscardLinkRemoved;
    hide GaveUp;
    hide RestoredNow;
    hide Restores;
    hide DiscardingNow;
    hide Discards;
    match (prev.row, row)
    case (RescanRow(_, _, _, _, _), RescanRow(_, _, _, _, _)) =>
      RemovedExactly(prev, row, m.native, obj.purpose, absent);
      RestoresSame(Recorded(prev.row, SourceKey), Recorded(row, SourceKey));
    case (DeletionRow(_, _, _, _), DeletionRow(_, _, _, _)) => RestoresSame(prev.row.record, row.record);
    case _ =>
  }

  lemma BornExactly(prev: ProofSet, row: Row, obj: Obj)
    ensures BirthOk(prev, row, obj) <==> Born(prev, row, obj)
  {
    hide Prior;
    NoneNamed(prev, obj.purpose);
    if prev.row.RescanRow? && row.RescanRow? {
      match obj.purpose
      case CarrierOf(key) => assert obj.purpose in {CarrierOf(key), MarkerOf(key)};
      case MarkerOf(key) => assert obj.purpose in {CarrierOf(key), MarkerOf(key)};
      case _ =>
    }
  }

  /** Main theorem of the transitions, both ways: a capture accepts an object exactly when it agrees
      with the object it continues by a controlled move, or continues none and is a birth the
      journal acknowledges. */
  lemma TransitionExactly(prev: ProofSet, row: Row, obj: Obj, absent: set<Purpose>)
    ensures Transition(prev, row, obj, absent) <==>
      || (exists m :: ContinuesFrom(prev, row, obj, m) && Agrees(prev, row, m, obj, absent))
      || (Born(prev, row, obj) && forall m :: !ContinuesFrom(prev, row, obj, m))
  {
    hide ContinuesFrom;
    hide Agrees;
    hide FieldsOk;
    hide MatchedIn;
    hide Born;
    hide BirthOk;
    MatchedExactly(prev, row, obj);
    BornExactly(prev, row, obj);
    var matched := MatchedIn(prev, row, obj);
    if matched.Some? { AgreesExactly(prev, row, matched.value, obj, absent); }
  }

  // ----- What must be there -----

  /** Whether a carrier in this phase must still have its directory and its marker. */
  predicate Standing(c: Option<Claims.Carrier>) { c == None || !c.value.phase.Discarded? }

  /** Whether a rescan's carrier must hold its file, phase by phase. */
  predicate Filled(row: Row, key: Key)
    requires row.RescanRow?
  {
    var c := Recorded(row, key);
    c == None ||
    match c.value.phase
    case Allocated => key != SourceKey && key in row.known
    case Claiming => false
    case Claimed => true
    case Restoring => key != PublicationKey || row.published == None
    case Restored => true
    case Discarding => false
    case Discarded => false
  }

  /** Whether the original must still stand under its own name. */
  predicate InPlace(c: Option<Claims.Carrier>) { c == None || c.value.phase.Allocated? || c.value.phase.Restored? }

  /** Whether the published file must stand where it was published. */
  predicate Published(row: Row)
    requires row.RescanRow?
  {
    row.published != None
    && (InPlace(Recorded(row, RollbackKey)) || Recorded(row, RollbackKey).value.phase.Restoring?)
  }

  /** What a capture may not find missing. */
  predicate Needed(row: Row, purpose: Purpose) {
    match row
    case NamespaceRow => true
    case DeletionRow(record, _, targetPresent, state) => (
      match purpose
      case Claim => false
      case Target => targetPresent && state != "completed" && InPlace(record)
      case DeleteArtifact =>
        record == None || record.value.phase.Claimed? || record.value.phase.Restoring? || record.value.phase.Restored?
      case _ => Standing(record))
    case RescanRow(_, published, _, samePath, _) => (
      match purpose
      case Destination => Published(row)
      case Source => if samePath && published != None then Published(row) else InPlace(Recorded(row, SourceKey))
      case CarrierOf(key) => Standing(Recorded(row, key))
      case MarkerOf(key) => Standing(Recorded(row, key))
      case ArtifactOf(key) => Filled(row, key)
      case _ => true)
  }

  /** A role may be found missing exactly when the phases of the journal's carriers do not need it. */
  lemma AbsentExactly(row: Row, purpose: Purpose)
    ensures AbsentAllowed(row, purpose) <==> !Needed(row, purpose)
  {
  }

  ghost predicate Somewhere(objects: seq<Obj>, purposes: set<Purpose>) {
    exists o :: o in objects && o.purpose in purposes
  }

  predicate GivenUp(c: Option<Claims.Carrier>) {
    c.Some? && (c.value.phase.Discarding? || c.value.phase.Discarded?)
  }

  /** A set is complete exactly when the file a claim is about is under one of its names, or has been
      discarded: the target of a deletion; the original of a rescan, which may be discarded only once
      the database is committed; and its publication, under the public name or in the rollback. */
  lemma CompleteExactly(row: Row, objects: seq<Obj>)
    ensures row.DeletionRow? ==> (Complete(row, objects) <==>
      !row.targetPresent || row.state == "completed" || GivenUp(row.record)
      || Somewhere(objects, {Target, Claim, DeleteArtifact}))
    ensures row.RescanRow? ==> (Complete(row, objects) <==>
      && (Somewhere(objects, {Source, ArtifactOf(SourceKey)})
          || (row.state in {"db_committed", "completed"} && GivenUp(Recorded(row, SourceKey))))
      && (row.published == None || Somewhere(objects, {if row.samePath then Source else Destination})
          || GivenUp(Recorded(row, RollbackKey))
          || (Recorded(row, RollbackKey) != None && Somewhere(objects, {ArtifactOf(RollbackKey)}))))
    ensures row.NamespaceRow? ==> Complete(row, objects)
  {
    forall purposes: set<Purpose>
      ensures Somewhere(objects, purposes) <==> exists p :: p in purposes && Present(objects, p)
    {
      if p :| p in purposes && Present(objects, p) {
        var i :| 0 <= i < |objects| && objects[i].purpose == p;
        assert objects[i] in objects;
      }
      if Somewhere(objects, purposes) {
        var o :| o in objects && o.purpose in purposes;
        assert Present(objects, o.purpose);
      }
    }
    hide Present;
    hide Somewhere;
  }
}

/** What the ledger's two writers and its reader amount to: a book that holds, for each owner, the
    newest entry and nothing else. No tables, no histories, no searches. */
module LedgerBook {
  import opened Text
  import opened Ledger

  /** The newest entry of an owner: its number, its proof, and whether it is an activation. */
  datatype Page = Page(id: nat, proof: Proof, active: bool)

  /** `names` are the sets ever prepared, `count` the entries ever made. */
  datatype Book = Book(newest: map<Owner, Page>, names: set<SetId>, count: nat)

  const BLANK := Book(map[], {}, 0)

  function Enter(b: Book, proof: Proof, active: bool): Book {
    Book(b.newest[proof.owner := Page(b.count + 1, proof, active)], b.names + {proof.setId}, b.count + 1)
  }

  function NewestId(b: Book, owner: Owner): Option<nat> {
    if owner in b.newest then Some(b.newest[owner].id) else None
  }

  /** A preparation names a new set and the owner's newest entry; an activation repeats the
      preparation that is the owner's newest entry. */
  predicate Admits(b: Book, call: Call) {
    match call
    case Prepare(proof, current, expected) =>
      current && proof.setId !in b.names && expected == NewestId(b, proof.owner)
    case Activate(proof, snapshot, current, event) =>
      current && snapshot == proof.snapshot && proof.owner in b.newest
      && b.newest[proof.owner] == Page(event, proof, false)
  }

  function Turn(b: Book, call: Call): Book {
    if Admits(b, call) then Enter(b, call.proof, call.Activate?) else b
  }

  function Turns(b: Book, calls: seq<Call>): Book
    decreases |calls|
  {
    if calls == [] then b else Turns(Turn(b, calls[0]), calls[1..])
  }

  function Read(b: Book, owner: Owner, current: bool): Readback {
    if owner !in b.newest then Absent
    else if b.newest[owner].active && current then Active(b.newest[owner].proof, b.newest[owner].id)
    else Mismatch
  }

  // ----- The tables keep the book -----

  predicate PageOk(s: State, e: Event, page: Page) {
    && e.id == page.id && e.setId == page.proof.setId
    && (if page.active then e.kind.Activated? else e.kind.Prepared?)
    && FindSet(s.sets, e.setId).Some? && FindSet(s.sets, e.setId).value.proof == page.proof
  }

  ghost predicate OwnerOk(b: Book, s: State, owner: Owner) {
    var latest := Latest(s.events, owner);
    && (owner in b.newest <==> latest.Some?)
    && (latest.Some? ==> PageOk(s, latest.value, b.newest[owner]))
  }

  ghost predicate Keeps(b: Book, s: State) {
    && |s.events| == b.count
    && (forall id :: id in b.names <==> FindSet(s.sets, id).Some?)
    && forall owner :: OwnerOk(b, s, owner)
  }

  /** Both sides admit the same calls. */
  lemma SameCalls(b: Book, s: State, call: Call)
    requires Keeps(b, s)
    ensures Succeeds(s, call) <==> Admits(b, call)
  {
    hide FindSet;
    hide Latest;
    assert OwnerOk(b, s, call.proof.owner);
  }

  lemma LatestAppended(events: seq<Event>, proof: Proof, kind: Kind, owner: Owner)
    ensures
      var next := Appended(events, proof, kind);
      && |next| == |events| + 1
      && Latest(next, owner) == if owner == proof.owner then Some(next[|events|]) else Latest(events, owner)
  {
    assert Appended(events, proof, kind)[..|events|] == events;
  }

  lemma TurnKeeps(b: Book, s: State, call: Call)
    requires Keeps(b, s)
    ensures Keeps(Turn(b, call), After(s, call))
  {
    hide FindSet;
    hide Latest;
    hide Succeeds;
    hide Admits;
    SameCalls(b, s, call);
    if Admits(b, call) {
      var c, next := Turn(b, call), After(s, call);
      var kind := next.events[|s.events|].kind;
      forall id ensures call.Prepare? ==>
          FindSet(next.sets, id) == if id == call.proof.setId then Some(next.sets[|s.sets|]) else FindSet(s.sets, id)
      {
        if call.Prepare? { FindSetAppend(s.sets, next.sets[|s.sets|], id); }
      }
      Named(b, s, call);
      forall owner ensures OwnerOk(c, next, owner) {
        assert OwnerOk(b, s, owner);
        LatestAppended(s.events, call.proof, kind, owner);
        if owner != call.proof.owner && Latest(s.events, owner).Some? && call.Prepare? {
          assert Latest(s.events, owner).value.setId != call.proof.setId;
        }
      }
    }
  }

  /** The set of an admitted activation is known and its proof is the call's; that of an admitted
      preparation is new. */
  lemma Named(b: Book, s: State, call: Call)
    requires Keeps(b, s) && Admits(b, call)
    ensures call.Prepare? <==> FindSet(s.sets, call.proof.setId).None?
    ensures call.Activate? ==> FindSet(s.sets, call.proof.setId).value.proof == call.proof
  {
    hide FindSet;
    hide Latest;
    assert OwnerOk(b, s, call.proof.owner);
  }

  lemma {:induction false} TurnsKeep(b: Book, s: State, calls: seq<Call>)
    requires Keeps(b, s)
    ensures Keeps(Turns(b, calls), RunCalls(s, calls))
    decreases |calls|
  {
    hide Keeps;
    hide After;
    hide Turn;
    if calls != [] {
      TurnKeeps(b, s, calls[0]);
      TurnsKeep(Turn(b, calls[0]), After(s, calls[0]), calls[1..]);
    }
  }

  /** Main theorem of the writers and the reader: after any calls, of whatever owners and in
      whatever order, the tables admit the calls that the book admits, and reading an owner yields
      what the owner's newest page says. */
  lemma TablesKeepBook(calls: seq<Call>, call: Call, owner: Owner, namespace: bool, current: bool)
    ensures
      var s, b := RunCalls(State([], []), calls), Turns(BLANK, calls);
      && (Succeeds(s, call) <==> Admits(b, call))
      && Reading(s, owner, namespace, current) == Read(b, owner, current)
      && |s.events| == b.count
  {
    hide FindSet;
    hide Latest;
    BlankKept();
    TurnsKeep(BLANK, State([], []), calls);
    var s, b := RunCalls(State([], []), calls), Turns(BLANK, calls);
    SameCalls(b, s, call);
    assert OwnerOk(b, s, owner);
  }

  lemma BlankKept()
    ensures Keeps(BLANK, State([], []))
  {
  }

  /** A prepared set is not active; its activation right after succeeds, and is what is read then,
      as long as it is current. */
  lemma PreparedThenActive(s: State, proof: Proof, expected: Option<nat>, namespace: bool)
    requires Succeeds(s, Prepare(proof, true, expected))
    ensures
      var prepared := After(s, Prepare(proof, true, expected));
      var activate := Activate(proof, proof.snapshot, true, |prepared.events|);
      && Reading(prepared, proof.owner, namespace, true) == Mismatch
      && Succeeds(prepared, activate)
      && Reading(After(prepared, activate), proof.owner, namespace, true) == Active(proof, |prepared.events| + 1)
      && Reading(After(prepared, activate), proof.owner, namespace, false) == Mismatch
  {
    hide FindSet;
    hide Latest;
    var prepared := After(s, Prepare(proof, true, expected));
    FindSetAppend(s.sets, prepared.sets[|s.sets|], proof.setId);
    LatestAppended(s.events, proof, Prepared(StampOf(proof)), proof.owner);
    LatestAppended(prepared.events, proof, Activated(StampOf(proof)), proof.owner);
  }

  /** The set of this name is recorded with this proof. */
  predicate Known(sets: seq<SetRow>, proof: Proof) {
    FindSet(sets, proof.setId).Some? && FindSet(sets, proof.setId).value.proof == proof
  }

  /** The event numbered `id` activates this proof's set, and is the last event of the history or
      is named by the last, a capability event of a namespace. */
  predicate Authorizes(h: seq<Event>, namespace: bool, proof: Proof, id: nat) {
    exists k :: 0 <= k < |h| && h[k].id == id && h[k].kind.Activated? && h[k].setId == proof.setId
      && (k == |h| - 1
          || (namespace && h[|h| - 1].kind.Allocation? && h[|h| - 1].kind.capability.activation == id))
  }

  /** In every legal history an owner reads as active exactly through the activation that its last
      event is or names, and then with the proof of that set. */
  lemma ActiveExactly(sets: seq<SetRow>, events: seq<Event>, owner: Owner, namespace: bool, proof: Proof, id: nat)
    requires UniqueIds(events) && Legal(sets, events, owner)
    ensures
      var s, h := State(sets, events), ByRevision(History(events, owner));
      && (Reading(s, owner, namespace, true) == Active(proof, id) <==>
            Known(sets, proof) && Authorizes(h, namespace, proof, id))
      && (Reading(s, owner, namespace, true) == Absent <==> h == [])
      && !Reading(s, owner, namespace, false).Active?
  {
    hide Latest;
    hide History;
    hide ByRevision;
    hide FindSet;
    hide FindEvent;
    hide PriorsOk;
    hide EventOk;
    hide Bound;
    var h := ByRevision(History(events, owner));
    LatestLegal(sets, events, owner);
    Replays(events, owner);
    if h != [] {
      var e := h[|h| - 1];
      LegalBound(sets, events, owner, e);
      AuthorityInHistory(sets, events, owner, namespace, h);
      forall k | 0 <= k < |h| && h[k].id == id ensures FindEvent(events, id) == Some(h[k]) {
        assert h[k] in h;
        FindUnique(events, h[k]);
      }
      if e.kind.Allocation? { FoundEvent(events, e.kind.capability.activation); }
    }
  }

  /** What the last event stands for is an event of the history, and if it is an activation its
      set is known under its own name. */
  lemma AuthorityInHistory(sets: seq<SetRow>, events: seq<Event>, owner: Owner, namespace: bool, h: seq<Event>)
    requires UniqueIds(events) && Legal(sets, events, owner) && h == ByRevision(History(events, owner)) && h != []
    ensures
      var a := Authority(events, h[|h| - 1], namespace);
      a.Some? && a.value in h && (a.value.kind.Activated? ==>
        FindSet(sets, a.value.setId).Some? && FindSet(sets, a.value.setId).value.proof.setId == a.value.setId)
  {
    hide PriorsOk;
    hide EventOk;
    hide ByRevision;
    hide History;
    hide FindEvent;
    hide FindSet;
    LatestLegal(sets, events, owner);
    Replays(events, owner);
    var e := h[|h| - 1];
    LegalBound(sets, events, owner, e);
    if e.kind.Allocation? { FoundEvent(events, e.kind.capability.activation); }
    FoundSet(sets, Authority(events, e, namespace).value.setId);
  }
}

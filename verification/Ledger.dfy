/** The append-only identity ledger: proposals and activations written under a
    compare-and-swap on an owner's newest event, and the replay that decides which
    histories are legal. Tables are sequences of rows; a transaction is one call. */
module Ledger {
  import opened Text
  import Graph

  type Owner = string
  type SetId = string
  type Digest = string

  /** What a version 2 snapshot says about the ownership of its allocation. */
  datatype Provision = Provision(plan: Digest, binding: string)

  datatype Proof = Proof(
    setId: SetId, owner: Owner, snapshot: Digest, manifest: Digest, epoch: string, provision: Option<Provision>)

  /** A persisted proposal and the owner's set that was newest before it. */
  datatype SetRow = SetRow(proof: Proof, prior: Option<SetId>)

  datatype Stamp = Stamp(snapshot: Digest, manifest: Digest)

  /** `prior` names the grant that a revocation ends; `binding` stands for the remaining fields. */
  datatype Capability = Capability(
    grant: bool, prior: Option<nat>, plan: Digest, epoch: string, activation: nat, binding: string)

  datatype Kind =
    | Prepared(stamp: Stamp)
    | Activated(stamp: Stamp)
    | Recovery(before: Digest)
    | Allocation(capability: Capability)

  datatype Event = Event(
    id: nat, owner: Owner, revision: nat, predecessor: Option<nat>, setId: SetId, kind: Kind)

  function StampOf(proof: Proof): Stamp { Stamp(proof.snapshot, proof.manifest) }

  // ----- Queries -----

  function FindSet(sets: seq<SetRow>, id: SetId): Option<SetRow> {
    if sets == [] then None
    else if sets[|sets| - 1].proof.setId == id then Some(sets[|sets| - 1])
    else FindSet(sets[..|sets| - 1], id)
  }

  function FindEvent(events: seq<Event>, id: nat): Option<Event> {
    if events == [] then None
    else if events[|events| - 1].id == id then Some(events[|events| - 1])
    else FindEvent(events[..|events| - 1], id)
  }

  /** The owner's event of the highest revision. */
  function Latest(events: seq<Event>, owner: Owner): Option<Event> {
    if events == [] then None
    else
      var last, rest := events[|events| - 1], Latest(events[..|events| - 1], owner);
      if last.owner == owner && (rest.None? || rest.value.revision <= last.revision) then Some(last) else rest
  }

  function History(events: seq<Event>, owner: Owner): seq<Event> {
    if events == [] then []
    else
      var last, rest := events[|events| - 1], History(events[..|events| - 1], owner);
      if last.owner == owner then rest + [last] else rest
  }

  function SetsOf(sets: seq<SetRow>, owner: Owner): seq<SetRow> {
    if sets == [] then []
    else
      var last, rest := sets[|sets| - 1], SetsOf(sets[..|sets| - 1], owner);
      if last.proof.owner == owner then rest + [last] else rest
  }

  function IdOf(event: Option<Event>): Option<nat> { if event.None? then None else Some(event.value.id) }

  function SetOf(event: Option<Event>): Option<SetId> { if event.None? then None else Some(event.value.setId) }

  function Previous(h: seq<Event>, k: nat): Option<Event>
    requires k <= |h|
  {
    if k == 0 then None else Some(h[k - 1])
  }

  // ----- Legal histories -----

  type Granted = (nat, Capability)

  /** The last capability event of an epoch before position `k`, by its id. */
  function LastCapability(h: seq<Event>, k: nat, epoch: string): Option<Granted>
    requires k <= |h|
  {
    if k == 0 then None
    else if IsCapability(h[k - 1], epoch) then Some((h[k - 1].id, h[k - 1].kind.capability))
    else LastCapability(h, k - 1, epoch)
  }

  predicate IsCapability(e: Event, epoch: string) { e.kind.Allocation? && e.kind.capability.epoch == epoch }

  /** The named activation is the owner's, of this set, and directly follows its preparation. */
  predicate ActivationOk(events: seq<Event>, proof: Proof, id: nat) {
    var activation := FindEvent(events, id);
    && activation.Some? && activation.value.kind.Activated?
    && activation.value.setId == proof.setId && activation.value.owner == proof.owner
    && activation.value.predecessor.Some?
    && var prepared := FindEvent(events, activation.value.predecessor.value);
    && prepared.Some? && prepared.value.kind.Prepared?
    && prepared.value.setId == proof.setId && prepared.value.owner == proof.owner
    && activation.value.revision == prepared.value.revision + 1
  }

  /** A grant is the epoch's first capability event and directly follows the activation it
      names; a revocation ends a grant and repeats what it was bound to. */
  predicate CapabilityOk(events: seq<Event>, previous: Option<Event>, prior: Option<Granted>, proof: Proof,
          c: Capability)
  {
    && c.grant == c.prior.None?
    && proof.provision.Some? && c.epoch == proof.epoch && c.binding == proof.provision.value.binding
    && ActivationOk(events, proof, c.activation)
    && (if c.grant then
          prior.None? && previous == FindEvent(events, c.activation) && c.plan == proof.provision.value.plan
        else
          && prior.Some? && prior.value.1.grant && c.prior == Some(prior.value.0)
          && c.epoch == prior.value.1.epoch && c.activation == prior.value.1.activation
          && c.binding == prior.value.1.binding)
  }

  /** No earlier event prepared, or activated, the same set. */
  predicate FirstOfKind(h: seq<Event>, k: nat)
    requires k < |h|
  {
    forall j :: 0 <= j < k && h[j].setId == h[k].setId ==>
      (h[j].kind.Prepared? ==> !h[k].kind.Prepared?) && (h[j].kind.Activated? ==> !h[k].kind.Activated?)
  }

  predicate EventOk(sets: seq<SetRow>, events: seq<Event>, owner: Owner, h: seq<Event>, k: nat)
    requires k < |h|
  {
    var e, row, previous := h[k], FindSet(sets, h[k].setId), Previous(h, k);
    && e.revision == k + 1 && e.predecessor == IdOf(previous)
    && row.Some? && row.value.proof.owner == owner
    && match e.kind
       case Prepared(stamp) =>
         stamp == StampOf(row.value.proof) && FirstOfKind(h, k) && row.value.prior == SetOf(previous)
       case Activated(stamp) =>
         && stamp == StampOf(row.value.proof) && FirstOfKind(h, k)
         && previous.Some? && previous.value.kind.Prepared? && previous.value.setId == e.setId
       case Recovery(before) => before == row.value.proof.snapshot
       case Allocation(c) => CapabilityOk(events, previous, LastCapability(h, k, c.epoch), row.value.proof, c)
  }

  /** The edges from each of the owner's sets to the set before it. */
  function PriorEdges(rows: seq<SetRow>): Graph.Edges {
    if rows == [] then map[]
    else
      var row := rows[|rows| - 1];
      PriorEdges(rows[..|rows| - 1])[row.proof.setId := if row.prior.None? then [] else [row.prior.value]]
  }

  ghost predicate PriorsOk(sets: seq<SetRow>, owner: Owner) {
    var edges := PriorEdges(SetsOf(sets, owner));
    Graph.Declared(edges) && forall p :: !Graph.Cycle(edges, p)
  }

  function InsertByRevision(e: Event, h: seq<Event>): seq<Event> {
    if h == [] || h[|h| - 1].revision <= e.revision then h + [e]
    else InsertByRevision(e, h[..|h| - 1]) + [h[|h| - 1]]
  }

  /** A stable sort by revision. */
  function ByRevision(h: seq<Event>): seq<Event> {
    if h == [] then [] else InsertByRevision(h[|h| - 1], ByRevision(h[..|h| - 1]))
  }

  ghost predicate EventsOk(sets: seq<SetRow>, events: seq<Event>, owner: Owner, h: seq<Event>) {
    forall k :: 0 <= k < |h| ==> EventOk(sets, events, owner, h, k)
  }

  ghost predicate Legal(sets: seq<SetRow>, events: seq<Event>, owner: Owner) {
    PriorsOk(sets, owner) && EventsOk(sets, events, owner, ByRevision(History(events, owner)))
  }

  // ----- The writers -----

  datatype State = State(sets: seq<SetRow>, events: seq<Event>)

  /** `current` says whether the proof's epoch, snapshot and dependencies still hold. */
  datatype Call =
    | Prepare(proof: Proof, current: bool, expected: Option<nat>)
    | Activate(proof: Proof, snapshot: Digest, current: bool, event: nat)

  function Appended(events: seq<Event>, proof: Proof, kind: Kind): seq<Event> {
    var latest := Latest(events, proof.owner);
    events + [Event(|events| + 1, proof.owner, if latest.None? then 1 else latest.value.revision + 1,
                    IdOf(latest), proof.setId, kind)]
  }

  /** A call that succeeds expected exactly the newest event of its owner. */
  predicate Succeeds(s: State, call: Call) {
    var latest := Latest(s.events, call.proof.owner);
    match call
    case Prepare(proof, current, expected) =>
      current && IdOf(latest) == expected && FindSet(s.sets, proof.setId).None?
    case Activate(proof, snapshot, current, event) =>
      && snapshot == proof.snapshot && current && IdOf(latest) == Some(event)
      && latest.value.kind.Prepared? && latest.value.setId == proof.setId
      && var row := FindSet(s.sets, proof.setId); row.Some? && row.value.proof == proof
  }

  function After(s: State, call: Call): State {
    if !Succeeds(s, call) then s
    else match call
      case Prepare(proof, _, _) =>
        State(s.sets + [SetRow(proof, SetOf(Latest(s.events, proof.owner)))],
              Appended(s.events, proof, Prepared(StampOf(proof))))
      case Activate(proof, _, _, _) => State(s.sets, Appended(s.events, proof, Activated(StampOf(proof))))
  }

  function Expected(call: Call): Option<nat> {
    if call.Prepare? then call.expected else Some(call.event)
  }

  // ----- What the writers keep -----

  predicate Numbered(events: seq<Event>) {
    forall i :: 0 <= i < |events| ==> events[i].id == i + 1 && (events[i].kind.Prepared? || events[i].kind.Activated?)
  }

  ghost predicate ChainOk(s: State, owner: Owner) {
    PriorsOk(s.sets, owner) && EventsOk(s.sets, s.events, owner, History(s.events, owner))
  }

  ghost predicate Written(s: State) { Numbered(s.events) && forall owner :: ChainOk(s, owner) }

  lemma {:induction false} HistoryKinds(events: seq<Event>, owner: Owner)
    requires Numbered(events)
    ensures forall e :: e in History(events, owner) ==>
      1 <= e.id <= |events| && e.owner == owner && (e.kind.Prepared? || e.kind.Activated?)
  {
    if events != [] { HistoryKinds(events[..|events| - 1], owner); }
  }

  /** With revisions counting up, the newest event is the last one. */
  lemma {:induction false} LatestIsLast(events: seq<Event>, owner: Owner)
    requires forall k :: 0 <= k < |History(events, owner)| ==> History(events, owner)[k].revision == k + 1
    ensures Latest(events, owner) == Previous(History(events, owner), |History(events, owner)|)
  {
    if events != [] {
      var init := events[..|events| - 1];
      assert forall k :: 0 <= k < |History(init, owner)| ==> History(init, owner)[k] == History(events, owner)[k];
      LatestIsLast(init, owner);
    }
  }

  lemma FindSetAppend(sets: seq<SetRow>, row: SetRow, id: SetId)
    ensures FindSet(sets + [row], id) == if row.proof.setId == id then Some(row) else FindSet(sets, id)
  {
    assert (sets + [row])[..|sets|] == sets;
  }

  /** An event that was fine stays fine when rows are added. */
  lemma EventStays(sets: seq<SetRow>, more: seq<SetRow>, events: seq<Event>, after: seq<Event>, owner: Owner,
                   h: seq<Event>, longer: seq<Event>, k: nat)
    requires k < |h| <= |longer| && longer[..|h|] == h && EventOk(sets, events, owner, h, k)
    requires h[k].kind.Prepared? || h[k].kind.Activated?
    requires FindSet(more, h[k].setId) == FindSet(sets, h[k].setId)
    ensures EventOk(more, after, owner, longer, k)
  {
    assert forall j :: 0 <= j <= k ==> longer[j] == h[j];
  }

  lemma {:induction false} EdgesKnown(sets: seq<SetRow>, owner: Owner, id: SetId)
    ensures id in PriorEdges(SetsOf(sets, owner)) ==> FindSet(sets, id).Some?
    ensures FindSet(sets, id).Some? && FindSet(sets, id).value.proof.owner == owner ==>
      id in PriorEdges(SetsOf(sets, owner))
  {
    if sets != [] {
      var last, init := sets[|sets| - 1], sets[..|sets| - 1];
      EdgesKnown(init, owner, id);
      if last.proof.owner == owner {
        assert SetsOf(sets, owner)[..|SetsOf(init, owner)|] == SetsOf(init, owner);
      }
    }
  }

  /** A new node that nothing leads to is on no cycle. */
  lemma AddSource(edges: Graph.Edges, node: SetId, children: seq<SetId>, p: seq<SetId>)
    requires Graph.Declared(edges) && node !in edges && node !in children
    ensures Graph.Cycle(edges[node := children], p) ==> Graph.Cycle(edges, p)
  {
    var more := edges[node := children];
    if Graph.Cycle(more, p) {
      forall i | 0 < i < |p| ensures p[i] != node {
        assert Graph.Edge(more, p[i - 1], p[i]);
        assert p[i - 1] in edges ==> node !in edges[p[i - 1]];
      }
      forall i | 0 <= i < |p| - 1 ensures Graph.Edge(edges, p[i], p[i + 1]) {
        assert Graph.Edge(more, p[i], p[i + 1]);
      }
    }
  }

  lemma PriorsStay(sets: seq<SetRow>, row: SetRow, owner: Owner)
    requires PriorsOk(sets, owner) && FindSet(sets, row.proof.setId).None?
    requires row.proof.owner == owner && row.prior.Some? ==>
      FindSet(sets, row.prior.value).Some? && FindSet(sets, row.prior.value).value.proof.owner == owner
    ensures PriorsOk(sets + [row], owner)
  {
    assert (sets + [row])[..|sets|] == sets;
    if row.proof.owner == owner {
      var rows := SetsOf(sets, owner);
      assert (rows + [row])[..|rows|] == rows;
      var edges, children := PriorEdges(rows), if row.prior.None? then [] else [row.prior.value];
      EdgesKnown(sets, owner, row.proof.setId);
      if row.prior.Some? { EdgesKnown(sets, owner, row.prior.value); }
      var more := edges[row.proof.setId := children];
      forall p ensures !Graph.Cycle(more, p) {
        AddSource(edges, row.proof.setId, children, p);
      }
    }
  }

  lemma HistoryGrows(events: seq<Event>, e: Event, owner: Owner)
    ensures History(events + [e], owner) ==
            if e.owner == owner then History(events, owner) + [e] else History(events, owner)
  {
    assert (events + [e])[..|events|] == events;
  }

  lemma Revisions(sets: seq<SetRow>, events: seq<Event>, owner: Owner, h: seq<Event>)
    requires EventsOk(sets, events, owner, h)
    ensures forall k :: 0 <= k < |h| ==> h[k].revision == k + 1
  {
    forall k | 0 <= k < |h| ensures h[k].revision == k + 1 {
      assert EventOk(sets, events, owner, h, k);
    }
  }

  /** Each event so far belongs to a known set of its owner's. */
  lemma EachOk(s: State, owner: Owner)
    requires EventsOk(s.sets, s.events, owner, History(s.events, owner))
    ensures forall e :: e in History(s.events, owner) ==>
      FindSet(s.sets, e.setId).Some? && FindSet(s.sets, e.setId).value.proof.owner == owner
  {
    var h := History(s.events, owner);
    forall e | e in h ensures FindSet(s.sets, e.setId).Some? && FindSet(s.sets, e.setId).value.proof.owner == owner {
      var k :| 0 <= k < |h| && h[k] == e;
      assert EventOk(s.sets, s.events, owner, h, k);
    }
  }

  lemma PreparedOk(sets: seq<SetRow>, more: seq<SetRow>, events: seq<Event>, owner: Owner, h: seq<Event>, e: Event,
          row: SetRow)
    requires FindSet(sets, e.setId).None? && forall d :: d in h ==> FindSet(sets, d.setId).Some?
    requires more == sets + [row] && row.proof.setId == e.setId && row.proof.owner == owner
    requires row.prior == SetOf(Previous(h, |h|)) && e.kind == Prepared(StampOf(row.proof))
    requires e.revision == |h| + 1 && e.predecessor == IdOf(Previous(h, |h|))
    ensures EventOk(more, events, owner, h + [e], |h|)
  {
    FindSetAppend(sets, row, e.setId);
    var longer := h + [e];
    forall j | 0 <= j < |h| ensures longer[j].setId != e.setId { assert longer[j] in h; }
  }

  lemma ActivatedOk(sets: seq<SetRow>, events: seq<Event>, owner: Owner, h: seq<Event>, e: Event, proof: Proof)
    requires FindSet(sets, e.setId).Some? && FindSet(sets, e.setId).value.proof == proof && proof.owner == owner
    requires h != [] && h[|h| - 1].kind.Prepared? && h[|h| - 1].setId == e.setId && e.kind == Activated(StampOf(proof))
    requires e.revision == |h| + 1 && e.predecessor == Some(h[|h| - 1].id)
    requires forall j :: 0 <= j < |h| && h[j].setId == e.setId ==> !h[j].kind.Activated?
    ensures EventOk(sets, events, owner, h + [e], |h|)
  {
    var longer := h + [e];
    assert forall j :: 0 <= j < |h| ==> longer[j] == h[j];
  }

  /** The appended event is legal where it stands. */
  lemma NewEventOk(s: State, call: Call)
    requires Numbered(s.events) && ChainOk(s, call.proof.owner) && Succeeds(s, call)
    ensures
      var h, next := History(s.events, call.proof.owner), After(s, call);
      var longer := History(next.events, call.proof.owner);
      |longer| == |h| + 1 && longer[..|h|] == h && EventOk(next.sets, next.events, call.proof.owner, longer, |h|)
  {
    hide PriorsOk;
    hide EventOk;
    hide History;
    hide FindSet;
    hide Latest;
    var owner, next := call.proof.owner, After(s, call);
    var h, e := History(s.events, owner), next.events[|s.events|];
    Revisions(s.sets, s.events, owner, h);
    LatestIsLast(s.events, owner);
    EachOk(s, owner);
    HistoryGrows(s.events, e, owner);
    if call.Prepare? {
      PreparedOk(s.sets, next.sets, next.events, owner, h, e, next.sets[|s.sets|]);
    } else {
      ActivatedOnce(s, owner);
      ActivatedOk(s.sets, next.events, owner, h, e, call.proof);
    }
  }

  /** A set whose preparation is the newest event has not been activated. */
  lemma ActivatedOnce(s: State, owner: Owner)
    requires EventsOk(s.sets, s.events, owner, History(s.events, owner))
    ensures
      var h := History(s.events, owner);
      h != [] && h[|h| - 1].kind.Prepared? ==>
        forall j :: 0 <= j < |h| && h[j].setId == h[|h| - 1].setId ==> !h[j].kind.Activated?
  {
    var h := History(s.events, owner);
    if h != [] && h[|h| - 1].kind.Prepared? {
      assert EventOk(s.sets, s.events, owner, h, |h| - 1);
      forall j | 0 <= j < |h| && h[j].setId == h[|h| - 1].setId ensures !h[j].kind.Activated? {
        assert EventOk(s.sets, s.events, owner, h, j);
      }
    }
  }

  lemma OldEventsOk(s: State, call: Call, owner: Owner, k: nat)
    requires Numbered(s.events) && ChainOk(s, owner) && Succeeds(s, call) && k < |History(s.events, owner)|
    ensures
      var next := After(s, call);
      k < |History(next.events, owner)| && EventOk(next.sets, next.events, owner, History(next.events, owner), k)
  {
    hide PriorsOk;
    var next := After(s, call);
    var h, longer := History(s.events, owner), History(next.events, owner);
    assert EventOk(s.sets, s.events, owner, h, k);
    HistoryGrows(s.events, next.events[|s.events|], owner);
    HistoryKinds(s.events, owner);
    assert h[k] in h;
    if call.Prepare? { FindSetAppend(s.sets, next.sets[|s.sets|], h[k].setId); }
    EventStays(s.sets, next.sets, s.events, next.events, owner, h, longer, k);
  }

  /** The set before a new one is one of the same owner's. */
  lemma PriorKnown(s: State, owner: Owner)
    requires Numbered(s.events) && ChainOk(s, owner)
    ensures
      var prior := SetOf(Latest(s.events, owner));
      prior.Some? ==> FindSet(s.sets, prior.value).Some? && FindSet(s.sets, prior.value).value.proof.owner == owner
  {
    hide PriorsOk;
    Revisions(s.sets, s.events, owner, History(s.events, owner));
    LatestIsLast(s.events, owner);
    EachOk(s, owner);
  }

  /** Each call of either writer, of whichever owner, keeps every owner's history legal. */
  lemma CallKeeps(s: State, call: Call)
    requires Written(s)
    ensures Written(After(s, call))
  {
    hide EventOk;
    hide PriorsOk;
    hide Succeeds;
    hide FindSet;
    hide History;
    var next := After(s, call);
    if Succeeds(s, call) {
      forall owner ensures ChainOk(next, owner) {
        assert ChainOk(s, owner);
        assert ChainOk(s, call.proof.owner);
        if call.Prepare? { PreparePriors(s, call, owner); }
        forall k | 0 <= k < |History(next.events, owner)|
          ensures EventOk(next.sets, next.events, owner, History(next.events, owner), k)
        {
          HistoryGrows(s.events, next.events[|s.events|], owner);
          if k < |History(s.events, owner)| { OldEventsOk(s, call, owner, k); } else { NewEventOk(s, call); }
        }
      }
    }
  }

  lemma PreparePriors(s: State, call: Call, owner: Owner)
    requires Written(s) && Succeeds(s, call) && call.Prepare?
    ensures PriorsOk(After(s, call).sets, owner)
  {
    hide EventOk;
    hide PriorsOk;
    assert ChainOk(s, owner);
    PriorKnown(s, owner);
    PriorsStay(s.sets, After(s, call).sets[|s.sets|], owner);
  }

  function RunCalls(s: State, calls: seq<Call>): State
    decreases |calls|
  {
    if calls == [] then s else RunCalls(After(s, calls[0]), calls[1..])
  }

  lemma {:induction false} SortedStays(h: seq<Event>)
    requires forall k :: 0 <= k < |h| ==> h[k].revision == k + 1
    ensures ByRevision(h) == h
  {
    if h != [] {
      SortedStays(h[..|h| - 1]);
      assert h[..|h| - 1] + [h[|h| - 1]] == h;
    }
  }

  lemma WrittenLegal(s: State, owner: Owner)
    requires Written(s)
    ensures Legal(s.sets, s.events, owner)
  {
    hide PriorsOk;
    assert ChainOk(s, owner);
    Revisions(s.sets, s.events, owner, History(s.events, owner));
    SortedStays(History(s.events, owner));
  }

  /** Whatever order the writers' calls come in, the replay finds every history legal. */
  lemma {:induction false} EveryHistoryLegal(s: State, calls: seq<Call>, owner: Owner)
    requires Written(s)
    ensures Legal(RunCalls(s, calls).sets, RunCalls(s, calls).events, owner)
    decreases |calls|
  {
    hide Written;
    hide After;
    hide Legal;
    if calls == [] {
      WrittenLegal(s, owner);
    } else {
      CallKeeps(s, calls[0]);
      EveryHistoryLegal(After(s, calls[0]), calls[1..], owner);
    }
  }

  lemma EmptyWritten()
    ensures Written(State([], []))
  {
    forall p ensures !Graph.Cycle(map[], p) {
      assert |p| >= 2 ==> !Graph.Edge(map[], p[0], p[1]);
    }
  }

  // ----- Compare-and-swap -----

  function LatestId(events: seq<Event>, owner: Owner): nat {
    var latest := Latest(events, owner);
    if latest.None? then 0 else latest.value.id
  }

  lemma {:induction false} LatestOwned(events: seq<Event>, owner: Owner)
    requires Numbered(events)
    ensures Latest(events, owner).Some? ==>
      Latest(events, owner).value.owner == owner && 1 <= Latest(events, owner).value.id <= |events|
  {
    if events != [] { LatestOwned(events[..|events| - 1], owner); }
  }

  lemma NewestAppended(events: seq<Event>, e: Event, owner: Owner)
    requires Numbered(events) && e.id == |events| + 1 && (e.kind.Prepared? || e.kind.Activated?)
    ensures Numbered(events + [e])
    ensures
      var latest := Latest(events, owner);
      Latest(events + [e], owner) ==
        if e.owner == owner && (latest.None? || latest.value.revision <= e.revision) then Some(e) else latest
  {
    assert (events + [e])[..|events|] == events;
  }

  /** A successful call moves its owner's newest event past the one it expected. */
  lemma LatestMoves(s: State, call: Call, owner: Owner)
    requires Numbered(s.events)
    ensures Numbered(After(s, call).events)
    ensures LatestId(After(s, call).events, owner) >= LatestId(s.events, owner)
    ensures Succeeds(s, call) ==>
      var before := LatestId(s.events, call.proof.owner);
      && (Expected(call) == if before == 0 then None else Some(before))
      && LatestId(After(s, call).events, call.proof.owner) > before
  {
    hide FindSet;
    hide Latest;
    hide Numbered;
    LatestOwned(s.events, owner);
    LatestOwned(s.events, call.proof.owner);
    if Succeeds(s, call) { NewestAppended(s.events, After(s, call).events[|s.events|], owner); }
    if Succeeds(s, call) { NewestAppended(s.events, After(s, call).events[|s.events|], call.proof.owner); }
  }

  lemma {:induction false} LatestNeverReturns(s: State, calls: seq<Call>, owner: Owner)
    requires Numbered(s.events)
    ensures Numbered(RunCalls(s, calls).events)
      && LatestId(RunCalls(s, calls).events, owner) >= LatestId(s.events, owner)
    decreases |calls|
  {
    hide After;
    if calls != [] {
      LatestMoves(s, calls[0], owner);
      LatestNeverReturns(After(s, calls[0]), calls[1..], owner);
    }
  }

  /** Of two calls for one owner that expect the same newest event, at most one succeeds,
      whatever happens between them. */
  lemma AtMostOneSucceeds(s: State, first: Call, between: seq<Call>, second: Call)
    requires Numbered(s.events) && first.proof.owner == second.proof.owner && Expected(first) == Expected(second)
    ensures !(Succeeds(s, first) && Succeeds(RunCalls(After(s, first), between), second))
  {
    hide After;
    hide Succeeds;
    var owner := first.proof.owner;
    LatestMoves(s, first, owner);
    LatestNeverReturns(After(s, first), between, owner);
    LatestMoves(RunCalls(After(s, first), between), second, owner);
  }

  // ----- The tables -----

  datatype Readback = Absent | Mismatch | Active(proof: Proof, event: nat)

  /** The activation that an event stands for: a capability event of a namespace stands for the
      activation it names, any other event for itself. */
  function Authority(events: seq<Event>, e: Event, namespace: bool): Option<Event> {
    if e.kind.Allocation? && namespace then FindEvent(events, e.kind.capability.activation) else Some(e)
  }

  /** What reading back an owner yields: the proof activated last, if the newest event activates it
      or is a capability event of that activation, and `current` says that its epoch, snapshot and
      dependencies still hold. */
  function Reading(s: State, owner: Owner, namespace: bool, current: bool): Readback {
    var latest := Latest(s.events, owner);
    if latest.None? then Absent
    else
      var e := Authority(s.events, latest.value, namespace);
      if e.None? || !e.value.kind.Activated? || !current then Mismatch
      else
        var row := FindSet(s.sets, e.value.setId);
        if row.None? then Mismatch else Active(row.value.proof, e.value.id)
  }

  class Store {
    var sets: seq<SetRow>
    var events: seq<Event>

    ghost function View(): State
      reads this
    {
      State(sets, events)
    }

    ghost predicate Valid()
      reads this
    {
      Written(View())
    }

    constructor ()
      ensures Valid() && View() == State([], [])
    {
      sets, events := [], [];
      new;
      EmptyWritten();
    }

    /** The compare-and-swap test shared by the writers. */
    method EventCas(owner: Owner, expected: Option<nat>) returns (unmoved: bool, latest: Option<Event>)
      ensures latest == Latest(events, owner) && (unmoved <==> IdOf(latest) == expected)
    {
      latest := Latest(events, owner);
      unmoved := IdOf(latest) == expected;
    }

    method Append(proof: Proof, kind: Kind, latest: Option<Event>) returns (id: nat)
      requires latest == Latest(events, proof.owner)
      modifies this`events
      ensures events == Appended(old(events), proof, kind) && id == |events|
    {
      id := |events| + 1;
      var revision := if latest.None? then 1 else latest.value.revision + 1;
      events := events + [Event(id, proof.owner, revision, IdOf(latest), proof.setId, kind)];
    }

    method PrepareSet(proof: Proof, current: bool, expected: Option<nat>) returns (event: Option<nat>)
      requires Valid()
      modifies this
      ensures Valid() && View() == After(old(View()), Prepare(proof, current, expected))
      ensures event == if Succeeds(old(View()), Prepare(proof, current, expected)) then Some(|events|) else None
    {
      hide Written;
      hide Latest;
      CallKeeps(View(), Prepare(proof, current, expected));
      if !current { return None; }
      var unmoved, latest := EventCas(proof.owner, expected);
      if !unmoved { return None; }
      if FindSet(sets, proof.setId).Some? { return None; }
      sets := sets + [SetRow(proof, SetOf(latest))];
      var id := Append(proof, Prepared(StampOf(proof)), latest);
      event := Some(id);
    }

    method ActivateSet(proof: Proof, snapshot: Digest, current: bool, expected: nat) returns (event: Option<nat>)
      requires Valid()
      modifies this
      ensures Valid() && View() == After(old(View()), Activate(proof, snapshot, current, expected))
      ensures event ==
              if Succeeds(old(View()), Activate(proof, snapshot, current, expected)) then Some(|events|) else None
    {
      hide Written;
      hide Latest;
      CallKeeps(View(), Activate(proof, snapshot, current, expected));
      if snapshot != proof.snapshot || !current { return None; }
      var unmoved, latest := EventCas(proof.owner, Some(expected));
      if !unmoved || latest.None? || !latest.value.kind.Prepared? || latest.value.setId != proof.setId { return None; }
      var row := FindSet(sets, proof.setId);
      if row.None? || row.value.proof != proof { return None; }
      var id := Append(proof, Activated(StampOf(proof)), latest);
      event := Some(id);
    }

    /** The readback of a written ledger. */
    method ReadActive(owner: Owner, namespace: bool, current: bool) returns (r: Readback)
      requires Valid()
      ensures r == Reading(View(), owner, namespace, current)
    {
      WrittenLegal(View(), owner);
      NumberedUnique(events);
      r := ReadBack(sets, events, owner, namespace, current);
    }
  }

  /** Event numbers are a primary key. */
  predicate UniqueIds(events: seq<Event>) {
    forall i, j :: 0 <= i < j < |events| ==> events[i].id != events[j].id
  }

  lemma NumberedUnique(events: seq<Event>)
    requires Numbered(events)
    ensures UniqueIds(events)
  {
  }

  lemma {:induction false} FindUnique(events: seq<Event>, e: Event)
    requires UniqueIds(events) && e in events
    ensures FindEvent(events, e.id) == Some(e)
  {
    var i :| 0 <= i < |events| && events[i] == e;
    if i < |events| - 1 {
      assert events[..|events| - 1][i] == e;
      FindUnique(events[..|events| - 1], e);
    }
  }

  lemma {:induction false} FoundEvent(events: seq<Event>, id: nat)
    ensures FindEvent(events, id).Some? ==>
      FindEvent(events, id).value in events && FindEvent(events, id).value.id == id
  {
    if events != [] { FoundEvent(events[..|events| - 1], id); }
  }

  /** An owner's history holds exactly its events. */
  lemma {:induction false} HistoryMember(events: seq<Event>, owner: Owner)
    ensures forall e :: e in History(events, owner) <==> e in events && e.owner == owner
  {
    if events != [] {
      HistoryMember(events[..|events| - 1], owner);
      assert events == events[..|events| - 1] + [events[|events| - 1]];
    }
  }

  predicate Rising(h: seq<Event>) { forall i, j :: 0 <= i < j < |h| ==> h[i].revision <= h[j].revision }

  lemma {:induction false} InsertAll(e: Event, h: seq<Event>)
    ensures multiset(InsertByRevision(e, h)) == multiset(h) + multiset{e}
  {
    if h != [] && h[|h| - 1].revision > e.revision {
      InsertAll(e, h[..|h| - 1]);
      assert h == h[..|h| - 1] + [h[|h| - 1]];
    }
  }

  lemma {:induction false} InsertSorts(e: Event, h: seq<Event>)
    requires Rising(h)
    ensures Rising(InsertByRevision(e, h))
  {
    if h != [] && h[|h| - 1].revision > e.revision {
      var init, last := h[..|h| - 1], h[|h| - 1];
      InsertSorts(e, init);
      InsertAll(e, init);
      var r := InsertByRevision(e, init);
      forall i | 0 <= i < |r| ensures r[i].revision <= last.revision {
        assert r[i] in multiset(r);
        assert r[i] == e || r[i] in init;
      }
    }
  }

  /** The replay reads an owner's own events, each once, by rising revision. */
  lemma {:induction false} SortsByRevision(h: seq<Event>)
    ensures |ByRevision(h)| == |h| && multiset(ByRevision(h)) == multiset(h)
    ensures Rising(ByRevision(h))
  {
    hide InsertByRevision;
    hide Rising;
    if h == [] {
      NothingRises();
    } else {
      var init, last := h[..|h| - 1], h[|h| - 1];
      assert h == init + [last];
      SortsByRevision(init);
      InsertSorts(last, ByRevision(init));
      InsertAll(last, ByRevision(init));
      assert |multiset(ByRevision(h))| == |multiset(h)|;
    }
  }

  lemma NothingRises()
    ensures Rising([])
  {
  }

  /** The events the replay reads are exactly the owner's. */
  lemma Replays(events: seq<Event>, owner: Owner)
    ensures forall e :: e in ByRevision(History(events, owner)) <==> e in events && e.owner == owner
  {
    hide ByRevision;
    hide History;
    var h := History(events, owner);
    HistoryMember(events, owner);
    SortsByRevision(h);
    forall e ensures e in ByRevision(h) <==> e in h {
      assert e in multiset(ByRevision(h)) <==> e in multiset(h);
    }
  }

  lemma {:induction false} LatestHighest(events: seq<Event>, owner: Owner)
    ensures
      var latest := Latest(events, owner);
      && (latest.None? <==> History(events, owner) == [])
      && (latest.Some? ==> latest.value in History(events, owner))
      && forall e :: e in History(events, owner) ==> e.revision <= latest.value.revision
  {
    if events != [] { LatestHighest(events[..|events| - 1], owner); }
  }

  /** In a legal history the newest event is the last that the replay reads. */
  lemma LatestLegal(sets: seq<SetRow>, events: seq<Event>, owner: Owner)
    requires Legal(sets, events, owner)
    ensures
      var h := ByRevision(History(events, owner));
      Latest(events, owner) == Previous(h, |h|)
  {
    hide PriorsOk;
    hide ByRevision;
    hide History;
    hide Latest;
    hide EventOk;
    var h := ByRevision(History(events, owner));
    Replays(events, owner);
    HistoryMember(events, owner);
    LatestHighest(events, owner);
    Revisions(sets, events, owner, h);
    SortsByRevision(History(events, owner));
    if h != [] {
      assert h[|h| - 1] in h;
      var latest := Latest(events, owner).value;
      var k :| 0 <= k < |h| && h[k] == latest;
      assert h[|h| - 1].revision <= latest.revision;
    }
  }

  /** An activation is bound to its set and to its preparation. */
  predicate Bound(sets: seq<SetRow>, events: seq<Event>, owner: Owner, e: Event) {
    e.kind.Activated? &&
    var row := FindSet(sets, e.setId);
    && row.Some? && row.value.proof.owner == owner
    && e.kind.stamp == StampOf(row.value.proof) && e.predecessor.Some?
    && var before := FindEvent(events, e.predecessor.value);
    && before.Some? && before.value.kind.Prepared? && before.value.setId == e.setId && before.value.owner == owner
    && e.revision == before.value.revision + 1 && before.value.kind.stamp == e.kind.stamp
  }

  lemma ActivationBound(sets: seq<SetRow>, events: seq<Event>, owner: Owner, h: seq<Event>, k: nat)
    requires UniqueIds(events) && k < |h| && EventsOk(sets, events, owner, h) && h[k].kind.Activated?
    requires forall e :: e in h ==> e in events && e.owner == owner
    ensures Bound(sets, events, owner, h[k])
  {
    hide FindSet;
    hide FindEvent;
    assert EventOk(sets, events, owner, h, k);
    assert EventOk(sets, events, owner, h, k - 1);
    assert h[k - 1] in h;
    FindUnique(events, h[k - 1]);
  }

  /** The activation a legal capability event names is bound too, and so is its binding. */
  lemma NamedBound(sets: seq<SetRow>, events: seq<Event>, owner: Owner, h: seq<Event>, k: nat)
    requires UniqueIds(events) && k < |h| && EventsOk(sets, events, owner, h) && h[k].kind.Allocation?
    requires forall e :: e in h <==> e in events && e.owner == owner
    ensures
      var c := h[k].kind.capability;
      var a, row := FindEvent(events, c.activation), FindSet(sets, h[k].setId);
      && a.Some? && a.value.owner == owner && a.value.setId == h[k].setId && Bound(sets, events, owner, a.value)
      && row.Some? && row.value.proof.provision.Some?
      && c.epoch == row.value.proof.epoch && c.binding == row.value.proof.provision.value.binding
  {
    hide LastCapability;
    hide Bound;
    hide FindSet;
    hide FindEvent;
    var c := h[k].kind.capability;
    assert EventOk(sets, events, owner, h, k);
    FoundEvent(events, c.activation);
    FoundSet(sets, h[k].setId);
    var a := FindEvent(events, c.activation).value;
    assert a in h;
    var j :| 0 <= j < |h| && h[j] == a;
    ActivationBound(sets, events, owner, h, j);
  }

  /** In a legal history no check of the tables can fail: the readback fails only when the newest
      event is neither an activation nor a capability event of one, or when its proof is no
      longer current. */
  method ReadBack(sets: seq<SetRow>, events: seq<Event>, owner: Owner, namespace: bool, current: bool)
    returns (r: Readback)
    requires UniqueIds(events) && Legal(sets, events, owner)
    ensures r == Reading(State(sets, events), owner, namespace, current)
  {
    hide Legal;
    hide FindSet;
    hide FindEvent;
    hide Latest;
    var latest := Latest(events, owner);
    if latest.None? { return Absent; }
    LegalBound(sets, events, owner, latest.value);
    var e := latest.value;
    var capability: Option<Capability> := None;
    if e.kind.Allocation? && namespace {
      capability := Some(e.kind.capability);
      var named := FindEvent(events, e.kind.capability.activation);
      if named.None? || !named.value.kind.Activated? || named.value.owner != owner || named.value.setId != e.setId {
        return Mismatch;
      }
      e := named.value;
    }
    if !e.kind.Activated? { return Mismatch; }
    var row := FindSet(sets, e.setId);
    if row.None? || row.value.proof.owner != owner { return Mismatch; }
    if e.kind.stamp != StampOf(row.value.proof) || e.predecessor.None? { return Mismatch; }
    var before := FindEvent(events, e.predecessor.value);
    if before.None? || !before.value.kind.Prepared? || before.value.setId != e.setId || before.value.owner != owner
       || e.revision != before.value.revision + 1 || before.value.kind.stamp != e.kind.stamp { return Mismatch; }
    if !current { return Mismatch; }
    if capability.Some? {
      var provision := row.value.proof.provision;
      if provision.None? { return Mismatch; }
      if capability.value.binding != provision.value.binding || capability.value.epoch != row.value.proof.epoch {
        return Mismatch;
      }
    }
    r := Active(row.value.proof, e.id);
  }

  lemma LegalBound(sets: seq<SetRow>, events: seq<Event>, owner: Owner, e: Event)
    requires UniqueIds(events) && Legal(sets, events, owner) && Latest(events, owner) == Some(e)
    ensures e.kind.Activated? ==> Bound(sets, events, owner, e)
    ensures e.kind.Allocation? ==>
      var a, row := FindEvent(events, e.kind.capability.activation), FindSet(sets, e.setId);
      && a.Some? && a.value.owner == owner && a.value.setId == e.setId && Bound(sets, events, owner, a.value)
      && row.Some? && row.value.proof.provision.Some?
      && e.kind.capability.epoch == row.value.proof.epoch
      && e.kind.capability.binding == row.value.proof.provision.value.binding
  {
    hide PriorsOk;
    hide EventOk;
    hide Bound;
    hide ByRevision;
    hide History;
    hide Latest;
    var h := ByRevision(History(events, owner));
    LatestLegal(sets, events, owner);
    Replays(events, owner);
    if e.kind.Activated? { ActivationBound(sets, events, owner, h, |h| - 1); }
    if e.kind.Allocation? { NamedBound(sets, events, owner, h, |h| - 1); }
  }

  // ----- The replay -----

  predicate UniqueSets(sets: seq<SetRow>) {
    forall i, j :: 0 <= i < j < |sets| ==> sets[i].proof.setId != sets[j].proof.setId
  }

  function Ids(rows: seq<SetRow>): (ids: seq<SetId>)
    ensures |ids| == |rows| && forall i :: 0 <= i < |rows| ==> ids[i] == rows[i].proof.setId
  {
    if rows == [] then [] else Ids(rows[..|rows| - 1]) + [rows[|rows| - 1].proof.setId]
  }

  lemma {:induction false} SetsOfUnique(sets: seq<SetRow>, owner: Owner)
    requires UniqueSets(sets)
    ensures UniqueSets(SetsOf(sets, owner))
    ensures forall row :: row in SetsOf(sets, owner) <==> row in sets && row.proof.owner == owner
  {
    if sets != [] {
      var last, init := sets[|sets| - 1], sets[..|sets| - 1];
      SetsOfUnique(init, owner);
      var rest := SetsOf(init, owner);
      forall i | 0 <= i < |rest| ensures rest[i].proof.setId != last.proof.setId {
        assert rest[i] in init;
      }
    }
  }

  lemma {:induction false} EdgeKeys(rows: seq<SetRow>)
    ensures PriorEdges(rows).Keys == Graph.Elements(Ids(rows))
  {
    if rows != [] {
      EdgeKeys(rows[..|rows| - 1]);
      assert Ids(rows) == Ids(rows[..|rows| - 1]) + [rows[|rows| - 1].proof.setId];
    }
  }

  /** Every row's own edge is in the table. */
  lemma {:induction false} EdgeOf(rows: seq<SetRow>, i: nat)
    requires UniqueSets(rows) && i < |rows|
    ensures rows[i].proof.setId in PriorEdges(rows)
    ensures PriorEdges(rows)[rows[i].proof.setId] == if rows[i].prior.None? then [] else [rows[i].prior.value]
  {
    if i < |rows| - 1 { EdgeOf(rows[..|rows| - 1], i); }
  }

  lemma NoEdges()
    ensures PriorEdges([]) == map[]
  {
  }

  lemma EdgesNext(rows: seq<SetRow>, i: nat)
    requires i < |rows|
    ensures PriorEdges(rows[..i + 1]) ==
      PriorEdges(rows[..i])[rows[i].proof.setId := if rows[i].prior.None? then [] else [rows[i].prior.value]]
  {
    assert rows[..i + 1][..i] == rows[..i];
  }

  /** A prior set that is none of the owner's leaves the table with an undeclared node. */
  lemma UnknownPrior(rows: seq<SetRow>, i: nat)
    requires UniqueSets(rows) && i < |rows| && rows[i].prior.Some? && rows[i].prior.value !in Ids(rows)
    ensures !Graph.Declared(PriorEdges(rows))
  {
    hide PriorEdges;
    EdgeOf(rows, i);
    EdgeKeys(rows);
    assert PriorEdges(rows)[rows[i].proof.setId][0] == rows[i].prior.value;
  }

  /** The owner's sets name known sets of the owner before them, and no chain of them is a loop. */
  method CheckPriors(sets: seq<SetRow>, owner: Owner) returns (ok: bool)
    requires UniqueSets(sets)
    ensures ok <==> PriorsOk(sets, owner)
  {
    hide SetsOf;
    hide PriorEdges;
    hide UniqueSets;
    hide Graph.Cycle;
    hide Graph.Declared;
    SetsOfUnique(sets, owner);
    NoEdges();
    var rows := SetsOf(sets, owner);
    var ids := Ids(rows);
    EdgeKeys(rows);
    var priors: Graph.Edges := map[];
    var i := 0;
    while i < |rows|
      invariant 0 <= i <= |rows| && priors == PriorEdges(rows[..i])
    {
      var prior := rows[i].prior;
      if prior.Some? && prior.value !in ids {
        UnknownPrior(rows, i);
        return false;
      }
      EdgesNext(rows, i);
      priors := priors[rows[i].proof.setId := if prior.None? then [] else [prior.value]];
      i := i + 1;
    }
    assert rows[..i] == rows;
    var verdict := Graph.CheckAcyclic(ids, priors);
    ok := verdict.Acyclic?;
  }

  datatype Seen = Seen(setId: SetId, activated: bool)

  /** `seen` holds the sets prepared and activated before position `k`. */
  ghost predicate SeenBefore(h: seq<Event>, k: nat, seen: set<Seen>)
    requires k <= |h|
  {
    forall id :: (Seen(id, false) in seen <==> exists j :: 0 <= j < k && h[j].setId == id && h[j].kind.Prepared?)
              && (Seen(id, true) in seen <==> exists j :: 0 <= j < k && h[j].setId == id && h[j].kind.Activated?)
  }

  ghost predicate LastBefore(h: seq<Event>, k: nat, capabilities: map<string, Granted>)
    requires k <= |h|
  {
    forall epoch :: LastCapability(h, k, epoch) == if epoch in capabilities then Some(capabilities[epoch]) else None
  }

  lemma SeenFirst(h: seq<Event>, k: nat, seen: set<Seen>)
    requires k < |h| && SeenBefore(h, k, seen)
    ensures h[k].kind.Prepared? ==> (FirstOfKind(h, k) <==> Seen(h[k].setId, false) !in seen)
    ensures h[k].kind.Activated? ==> (FirstOfKind(h, k) <==> Seen(h[k].setId, true) !in seen)
  {
  }

  lemma SeenStep(h: seq<Event>, k: nat, seen: set<Seen>)
    requires k < |h| && SeenBefore(h, k, seen)
    ensures h[k].kind.Prepared? ==> SeenBefore(h, k + 1, seen + {Seen(h[k].setId, false)})
    ensures h[k].kind.Activated? ==> SeenBefore(h, k + 1, seen + {Seen(h[k].setId, true)})
    ensures !h[k].kind.Prepared? && !h[k].kind.Activated? ==> SeenBefore(h, k + 1, seen)
  {
  }

  lemma LastStep(h: seq<Event>, k: nat, capabilities: map<string, Granted>)
    requires k < |h| && LastBefore(h, k, capabilities)
    ensures h[k].kind.Allocation? ==>
      LastBefore(h, k + 1, capabilities[h[k].kind.capability.epoch := (h[k].id, h[k].kind.capability)])
    ensures !h[k].kind.Allocation? ==> LastBefore(h, k + 1, capabilities)
  {
  }

  /** The replay accepts exactly the legal histories. */
  method Validate(sets: seq<SetRow>, events: seq<Event>, owner: Owner) returns (ok: bool)
    requires UniqueSets(sets)
    ensures ok <==> Legal(sets, events, owner)
  {
    hide PriorsOk;
    hide FirstOfKind;
    hide CapabilityOk;
    hide SeenBefore;
    hide LastBefore;
    hide FindSet;
    hide ByRevision;
    hide History;
    hide LastCapability;
    var priors := CheckPriors(sets, owner);
    if !priors { return false; }
    var h := ByRevision(History(events, owner));
    var previous: Option<Event> := None;
    var seen: set<Seen> := {};
    var capabilities: map<string, Granted> := map[];
    var k := 0;
    NothingSeen(h);
    while k < |h|
      invariant 0 <= k <= |h| && previous == Previous(h, k)
      invariant SeenBefore(h, k, seen) && LastBefore(h, k, capabilities)
      invariant forall j :: 0 <= j < k ==> EventOk(sets, events, owner, h, j)
      decreases |h| - k
    {
      var event, row := h[k], FindSet(sets, h[k].setId);
      SeenFirst(h, k, seen);
      SeenStep(h, k, seen);
      LastStep(h, k, capabilities);
      ghost var fine := EventOk(sets, events, owner, h, k);
      if event.revision != k + 1 || event.predecessor != IdOf(previous) { assert !fine; return false; }
      if row.None? || row.value.proof.owner != owner { assert !fine; return false; }
      var proof := row.value.proof;
      match event.kind {
      case Prepared(stamp) =>
        if stamp != StampOf(proof) || Seen(event.setId, false) in seen || row.value.prior != SetOf(previous) {
          assert !fine;
          return false;
        }
        seen := seen + {Seen(event.setId, false)};
      case Activated(stamp) =>
        if stamp != StampOf(proof) || Seen(event.setId, true) in seen || previous.None?
           || !previous.value.kind.Prepared? || previous.value.setId != event.setId {
          assert !fine;
          return false;
        }
        seen := seen + {Seen(event.setId, true)};
      case Recovery(before) =>
        if before != proof.snapshot { assert !fine; return false; }
      case Allocation(c) =>
        var prior := if c.epoch in capabilities then Some(capabilities[c.epoch]) else None;
        PriorIs(h, k, capabilities, c.epoch);
        if !CapabilityOk(events, previous, prior, proof, c) { assert !fine; return false; }
        capabilities := capabilities[c.epoch := (event.id, c)];
      }
      assert fine;
      previous := Some(event);
      k := k + 1;
    }
    ok := true;
  }

  lemma NothingSeen(h: seq<Event>)
    ensures SeenBefore(h, 0, {}) && LastBefore(h, 0, map[])
  {
  }

  lemma PriorIs(h: seq<Event>, k: nat, capabilities: map<string, Granted>, epoch: string)
    requires k <= |h| && LastBefore(h, k, capabilities)
    ensures LastCapability(h, k, epoch) == if epoch in capabilities then Some(capabilities[epoch]) else None
  {
  }

  // ----- The capability of an epoch -----

  /** The positions of an epoch's capability events among the first `n` events. */
  function Capabilities(h: seq<Event>, n: nat, epoch: string): (ks: seq<nat>)
    requires n <= |h|
    ensures forall i :: 0 <= i < |ks| ==> ks[i] < n && IsCapability(h[ks[i]], epoch)
  {
    if n == 0 then []
    else Capabilities(h, n - 1, epoch) + (if IsCapability(h[n - 1], epoch) then [n - 1] else [])
  }

  lemma {:induction false} CapabilitiesAll(h: seq<Event>, n: nat, epoch: string, k: nat)
    requires n <= |h| && k < n && IsCapability(h[k], epoch)
    ensures k in Capabilities(h, n, epoch)
  {
    if k < n - 1 { CapabilitiesAll(h, n - 1, epoch, k); }
  }

  lemma {:induction false} LastIsLast(h: seq<Event>, n: nat, epoch: string)
    requires n <= |h|
    ensures
      var ks := Capabilities(h, n, epoch);
      LastCapability(h, n, epoch) == if ks == [] then None
        else Some((h[ks[|ks| - 1]].id, h[ks[|ks| - 1]].kind.capability))
  {
    if n > 0 {
      var before := Capabilities(h, n - 1, epoch);
      LastIsLast(h, n - 1, epoch);
      if IsCapability(h[n - 1], epoch) {
        assert Capabilities(h, n, epoch) == before + [n - 1];
      } else {
        assert Capabilities(h, n, epoch) == before;
      }
    }
  }

  /** Nothing, a grant, or a grant and its revocation. */
  predicate GrantedOnce(events: seq<Event>, h: seq<Event>, ks: seq<nat>)
    requires forall i :: 0 <= i < |ks| ==> ks[i] < |h| && h[ks[i]].kind.Allocation?
  {
    && |ks| <= 2
    && (|ks| >= 1 ==> DirectGrant(events, h, ks[0]))
    && (|ks| == 2 ==> ks[0] < ks[1] && Revokes(h[ks[0]], h[ks[1]]))
  }

  /** The grant's predecessor is the activation it names, of the same set. */
  predicate DirectGrant(events: seq<Event>, h: seq<Event>, k: nat)
    requires k < |h| && h[k].kind.Allocation?
  {
    var c := h[k].kind.capability;
    && c.grant && k > 0 && h[k - 1].kind.Activated? && h[k - 1].setId == h[k].setId
    && FindEvent(events, c.activation) == Some(h[k - 1])
  }

  predicate Revokes(granting: Event, revoking: Event)
    requires granting.kind.Allocation? && revoking.kind.Allocation?
  {
    var g, r := granting.kind.capability, revoking.kind.capability;
    !r.grant && r.prior == Some(granting.id) && r.epoch == g.epoch && r.activation == g.activation
      && r.binding == g.binding
  }

  lemma CapabilityStep(events: seq<Event>, h: seq<Event>, ks: seq<nat>, k: nat, proof: Proof)
    requires k < |h| && h[k].kind.Allocation? && proof.setId == h[k].setId
    requires forall i :: 0 <= i < |ks| ==> ks[i] < k && h[ks[i]].kind.Allocation?
    requires GrantedOnce(events, h, ks)
    requires
      var last := if ks == [] then None else Some((h[ks[|ks| - 1]].id, h[ks[|ks| - 1]].kind.capability));
      CapabilityOk(events, Previous(h, k), last, proof, h[k].kind.capability)
    ensures GrantedOnce(events, h, ks + [k])
  {
    hide FindEvent;
    if |ks| == 1 { assert DirectGrant(events, h, ks[0]); }
  }

  lemma AllocationOk(sets: seq<SetRow>, events: seq<Event>, owner: Owner, h: seq<Event>, k: nat)
    requires k < |h| && h[k].kind.Allocation? && EventOk(sets, events, owner, h, k)
    ensures
      var c, row := h[k].kind.capability, FindSet(sets, h[k].setId);
      && row.Some? && row.value.proof.setId == h[k].setId
      && CapabilityOk(events, Previous(h, k), LastCapability(h, k, c.epoch), row.value.proof, c)
  {
    hide CapabilityOk;
    hide LastCapability;
    FoundSet(sets, h[k].setId);
  }

  lemma {:induction false} CapabilitiesUpTo(sets: seq<SetRow>, events: seq<Event>, owner: Owner, h: seq<Event>,
          n: nat, epoch: string)
    requires n <= |h| && forall k :: 0 <= k < n ==> EventOk(sets, events, owner, h, k)
    ensures GrantedOnce(events, h, Capabilities(h, n, epoch))
  {
    hide EventOk;
    hide CapabilityOk;
    hide GrantedOnce;
    hide FindSet;
    hide LastCapability;
    if n == 0 {
      NoneGranted(events, h);
      assert Capabilities(h, n, epoch) == [];
    } else {
      CapabilitiesUpTo(sets, events, owner, h, n - 1, epoch);
      if IsCapability(h[n - 1], epoch) {
        LastIsLast(h, n - 1, epoch);
        AllocationOk(sets, events, owner, h, n - 1);
        CapabilityStep(events, h, Capabilities(h, n - 1, epoch), n - 1, FindSet(sets, h[n - 1].setId).value.proof);
      } else {
        assert Capabilities(h, n, epoch) == Capabilities(h, n - 1, epoch);
      }
    }
  }

  lemma NoneGranted(events: seq<Event>, h: seq<Event>)
    ensures GrantedOnce(events, h, [])
  {
  }

  lemma {:induction false} FoundSet(sets: seq<SetRow>, id: SetId)
    ensures FindSet(sets, id).Some? ==> FindSet(sets, id).value.proof.setId == id
  {
    if sets != [] { FoundSet(sets[..|sets| - 1], id); }
  }

  /** In every legal history an epoch is granted at most once, directly after the activation
      the grant names, revoked at most once on the grant's own terms, and never granted again. */
  lemma EpochGrantedOnce(sets: seq<SetRow>, events: seq<Event>, owner: Owner, epoch: string)
    requires Legal(sets, events, owner)
    ensures
      var h := ByRevision(History(events, owner));
      && GrantedOnce(events, h, Capabilities(h, |h|, epoch))
      && forall k :: 0 <= k < |h| && IsCapability(h[k], epoch) ==> k in Capabilities(h, |h|, epoch)
  {
    hide EventOk;
    hide GrantedOnce;
    hide PriorsOk;
    var h := ByRevision(History(events, owner));
    CapabilitiesUpTo(sets, events, owner, h, |h|, epoch);
    forall k | 0 <= k < |h| && IsCapability(h[k], epoch) ensures k in Capabilities(h, |h|, epoch) {
      CapabilitiesAll(h, |h|, epoch, k);
    }
  }
}

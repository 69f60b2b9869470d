/** The rules of a legal history, each told from the events before it alone: no table of seen
    events or of capabilities, and none of the checks that the legality of the earlier events
    makes redundant. */
module LedgerRules {
  import opened Text
  import opened Ledger

  predicate Prepares(h: seq<Event>, id: SetId) { exists i :: 0 <= i < |h| && h[i].kind.Prepared? && h[i].setId == id }

  /** The last event so far activates this set. */
  predicate JustActivated(h: seq<Event>, id: SetId) {
    h != [] && h[|h| - 1].kind.Activated? && h[|h| - 1].setId == id
  }

  /** The only capability event of the epoch so far is the grant at `i`. */
  predicate Outstanding(h: seq<Event>, epoch: string, i: nat) {
    && i < |h| && IsCapability(h[i], epoch) && h[i].kind.capability.grant
    && forall j :: 0 <= j < |h| && IsCapability(h[j], epoch) ==> j == i
  }

  /** A grant directly follows the activation it names and is on the terms of the set's provision;
      a revocation ends the epoch's one outstanding grant on the grant's own terms and set. */
  ghost predicate MayFollow(proof: Proof, h: seq<Event>, e: Event) {
    match e.kind
    case Prepared(stamp) => stamp == Stamp(proof.snapshot, proof.manifest) && !Prepares(h, e.setId)
    case Activated(stamp) =>
      stamp == Stamp(proof.snapshot, proof.manifest)
      && h != [] && h[|h| - 1].kind.Prepared? && h[|h| - 1].setId == e.setId
    case Recovery(before) => before == proof.snapshot
    case Allocation(c) =>
      && c.epoch == proof.epoch
      && if c.grant then
           && JustActivated(h, e.setId) && c.activation == h[|h| - 1].id && c.prior.None?
           && proof.provision == Some(Provision(c.plan, c.binding))
           && forall j :: 0 <= j < |h| ==> !IsCapability(h[j], c.epoch)
         else
           exists i: nat :: Outstanding(h, c.epoch, i) && h[i].setId == e.setId && c.prior == Some(h[i].id)
             && c.activation == h[i].kind.capability.activation && c.binding == h[i].kind.capability.binding
  }

  /** The next event of an owner whose history so far is `h`. */
  ghost predicate Continues(sets: seq<SetRow>, owner: Owner, h: seq<Event>, e: Event) {
    && e.revision == |h| + 1 && e.predecessor == (if h == [] then None else Some(h[|h| - 1].id))
    && exists row :: FindSet(sets, e.setId) == Some(row) && row.proof.owner == owner && MayFollow(row.proof, h, e)
         && (e.kind.Prepared? ==> row.prior == if h == [] then None else Some(h[|h| - 1].setId))
  }

  ghost predicate AllContinue(sets: seq<SetRow>, owner: Owner, h: seq<Event>, n: nat)
    requires n <= |h|
  {
    forall k :: 0 <= k < n ==> Continues(sets, owner, h[..k], h[k])
  }

  /** The events are the owner's, and their numbers tell them apart. */
  ghost predicate Owned(events: seq<Event>, owner: Owner, h: seq<Event>) {
    UniqueIds(events) && forall e :: e in h ==> e in events && e.owner == owner
  }

  // ----- Each kind of event -----

  lemma ActivatesOnce(sets: seq<SetRow>, events: seq<Event>, owner: Owner, h: seq<Event>, k: nat)
    requires k < |h| && forall j :: 0 <= j < k ==> EventOk(sets, events, owner, h, j)
    requires k > 0 && h[k - 1].kind.Prepared? && h[k - 1].setId == h[k].setId && h[k].kind.Activated?
    ensures FirstOfKind(h, k)
  {
    hide FindSet;
    hide CapabilityOk;
    hide LastCapability;
    assert EventOk(sets, events, owner, h, k - 1);
    forall j | 0 <= j < k && h[j].setId == h[k].setId ensures !h[j].kind.Activated? {
      assert EventOk(sets, events, owner, h, j);
    }
  }

  lemma PreparesFirst(h: seq<Event>, k: nat)
    requires k < |h| && h[k].kind.Prepared?
    ensures FirstOfKind(h, k) <==> !Prepares(h[..k], h[k].setId)
  {
    if !Prepares(h[..k], h[k].setId) {
      forall j | 0 <= j < k && h[j].setId == h[k].setId ensures !h[j].kind.Prepared? {
        assert h[..k][j] == h[j];
      }
    }
    if FirstOfKind(h, k) {
      forall j | 0 <= j < |h[..k]| && h[..k][j].kind.Prepared? ensures h[..k][j].setId != h[k].setId {
        assert h[j] == h[..k][j];
      }
    }
  }

  /** A bound activation of the set passes the check of the activation a capability names. */
  lemma BoundActivationOk(sets: seq<SetRow>, events: seq<Event>, owner: Owner, h: seq<Event>, k: nat, proof: Proof)
    requires Owned(events, owner, h) && k < |h| && EventsOk(sets, events, owner, h[..k + 1]) && h[k].kind.Activated?
    requires proof.setId == h[k].setId && proof.owner == owner
    ensures FindEvent(events, h[k].id) == Some(h[k]) && ActivationOk(events, proof, h[k].id)
  {
    hide FindSet;
    hide EventOk;
    hide FindEvent;
    assert h[..k + 1][k] == h[k] && h[k] in h;
    FindUnique(events, h[k]);
    forall e | e in h[..k + 1] ensures e in events && e.owner == owner { assert e in h; }
    ActivationBound(sets, events, owner, h[..k + 1], k);
    FoundEvent(events, h[k].predecessor.value);
  }

  lemma PrefixOk(sets: seq<SetRow>, events: seq<Event>, owner: Owner, h: seq<Event>, k: nat)
    requires k <= |h| && forall j :: 0 <= j < k ==> EventOk(sets, events, owner, h, j)
    ensures EventsOk(sets, events, owner, h[..k])
  {
    hide FindSet;
    hide CapabilityOk;
    forall j | 0 <= j < k ensures EventOk(sets, events, owner, h[..k], j) {
      assert EventOk(sets, events, owner, h, j);
      assert forall i :: 0 <= i <= j ==> h[..k][i] == h[i];
      if h[j].kind.Allocation? { SameLast(h, h[..k], j, h[j].kind.capability.epoch); }
    }
  }

  lemma {:induction false} SameLast(h: seq<Event>, g: seq<Event>, k: nat, epoch: string)
    requires k <= |h| && k <= |g| && forall i :: 0 <= i < k ==> h[i] == g[i]
    ensures LastCapability(h, k, epoch) == LastCapability(g, k, epoch)
  {
    if k > 0 { SameLast(h, g, k - 1, epoch); }
  }

  /** The last capability event of the epoch before `k`, if there is one. */
  lemma {:induction false} LastMeans(h: seq<Event>, k: nat, epoch: string)
    requires k <= |h|
    ensures LastCapability(h, k, epoch).None? <==> forall j :: 0 <= j < k ==> !IsCapability(h[j], epoch)
    ensures LastCapability(h, k, epoch).Some? ==>
      exists i :: 0 <= i < k && IsCapability(h[i], epoch) && (forall j :: i < j < k ==> !IsCapability(h[j], epoch))
        && LastCapability(h, k, epoch).value == (h[i].id, h[i].kind.capability)
  {
    if k > 0 && !IsCapability(h[k - 1], epoch) { LastMeans(h, k - 1, epoch); }
  }

  lemma FirstGrant(sets: seq<SetRow>, events: seq<Event>, owner: Owner, h: seq<Event>, k: nat, epoch: string, i: nat)
    requires k <= |h| && forall j :: 0 <= j < k ==> EventOk(sets, events, owner, h, j)
    requires i < k && IsCapability(h[i], epoch) && h[i].kind.capability.grant
    ensures forall j :: 0 <= j < i ==> !IsCapability(h[j], epoch)
  {
    hide FindSet;
    hide FindEvent;
    hide LastCapability;
    assert EventOk(sets, events, owner, h, i);
    LastMeans(h, i, epoch);
  }

  /** What a legal capability event says about its set. */
  lemma GrantTerms(sets: seq<SetRow>, events: seq<Event>, owner: Owner, h: seq<Event>, i: nat)
    requires i < |h| && EventOk(sets, events, owner, h, i) && h[i].kind.Allocation?
    ensures
      var c, row := h[i].kind.capability, FindSet(sets, h[i].setId);
      && row.Some? && row.value.proof.provision.Some? && c.epoch == row.value.proof.epoch
      && c.binding == row.value.proof.provision.value.binding && ActivationOk(events, row.value.proof, c.activation)
      && row.value.proof.setId == h[i].setId
      && (c.grant ==> c.plan == row.value.proof.provision.value.plan)
  {
    hide ActivationOk;
    hide LastCapability;
    FoundSet(sets, h[i].setId);
  }

  lemma GrantFollows(sets: seq<SetRow>, events: seq<Event>, owner: Owner, h: seq<Event>, k: nat, proof: Proof,
          c: Capability)
    requires Owned(events, owner, h) && k < |h| && forall j :: 0 <= j < k ==> EventOk(sets, events, owner, h, j)
    requires h[k].kind == Allocation(c) && c.grant && proof.setId == h[k].setId && proof.owner == owner
    ensures CapabilityOk(events, Previous(h, k), LastCapability(h, k, c.epoch), proof, c) <==>
      MayFollow(proof, h[..k], h[k])
  {
    hide FindSet;
    hide FindEvent;
    hide EventOk;
    hide LastCapability;
    LastMeans(h, k, c.epoch);
    assert forall j :: 0 <= j < k ==> h[..k][j] == h[j];
    FoundEvent(events, c.activation);
    if JustActivated(h[..k], h[k].setId) {
      PrefixOk(sets, events, owner, h, k);
      assert h[..k - 1 + 1] == h[..k];
      BoundActivationOk(sets, events, owner, h, k - 1, proof);
    }
  }

  lemma RevocationFollows(sets: seq<SetRow>, events: seq<Event>, owner: Owner, h: seq<Event>, k: nat, row: SetRow,
          c: Capability)
    requires Owned(events, owner, h) && k < |h| && forall j :: 0 <= j < k ==> EventOk(sets, events, owner, h, j)
    requires h[k].kind == Allocation(c) && !c.grant && FindSet(sets, h[k].setId) == Some(row)
    requires row.proof.setId == h[k].setId && row.proof.owner == owner
    ensures CapabilityOk(events, Previous(h, k), LastCapability(h, k, c.epoch), row.proof, c) <==>
      MayFollow(row.proof, h[..k], h[k])
  {
    hide FindEvent;
    hide FindSet;
    hide EventOk;
    hide LastCapability;
    LastMeans(h, k, c.epoch);
    assert forall j :: 0 <= j < k ==> h[..k][j] == h[j];
    if CapabilityOk(events, Previous(h, k), LastCapability(h, k, c.epoch), row.proof, c) {
      var i :| 0 <= i < k && IsCapability(h[i], c.epoch) && (forall j :: i < j < k ==> !IsCapability(h[j], c.epoch))
        && LastCapability(h, k, c.epoch).value == (h[i].id, h[i].kind.capability);
      FirstGrant(sets, events, owner, h, k, c.epoch, i);
      GrantTerms(sets, events, owner, h, i);
      assert Outstanding(h[..k], c.epoch, i);
    }
    if MayFollow(row.proof, h[..k], h[k]) {
      var i: nat :| Outstanding(h[..k], c.epoch, i) && h[..k][i].setId == h[k].setId && c.prior == Some(h[..k][i].id)
        && c.activation == h[..k][i].kind.capability.activation && c.binding == h[..k][i].kind.capability.binding;
      GrantTerms(sets, events, owner, h, i);
    }
  }

  lemma FollowsExactly(sets: seq<SetRow>, events: seq<Event>, owner: Owner, h: seq<Event>, k: nat)
    requires Owned(events, owner, h) && k < |h| && forall j :: 0 <= j < k ==> EventOk(sets, events, owner, h, j)
    ensures EventOk(sets, events, owner, h, k) <==> Continues(sets, owner, h[..k], h[k])
  {
    hide FindSet;
    hide CapabilityOk;
    hide LastCapability;
    hide MayFollow;
    assert k > 0 ==> h[..k][|h[..k]| - 1] == h[k - 1];
    FoundSet(sets, h[k].setId);
    var row := FindSet(sets, h[k].setId);
    if row.Some? && row.value.proof.owner == owner {
      match h[k].kind
      case Prepared(stamp) => PreparesFirst(h, k); PreparedFollows(row.value.proof, h, k);
      case Activated(stamp) =>
        ActivatedFollows(row.value.proof, h, k);
        if k > 0 && h[k - 1].kind.Prepared? && h[k - 1].setId == h[k].setId {
          ActivatesOnce(sets, events, owner, h, k);
        }
      case Recovery(before) => RecoveryFollows(row.value.proof, h, k);
      case Allocation(c) =>
        if c.grant {
          GrantFollows(sets, events, owner, h, k, row.value.proof, c);
        } else {
          RevocationFollows(sets, events, owner, h, k, row.value, c);
        }
    }
  }

  lemma PreparedFollows(proof: Proof, h: seq<Event>, k: nat)
    requires k < |h| && h[k].kind.Prepared?
    ensures MayFollow(proof, h[..k], h[k]) <==> h[k].kind.stamp == StampOf(proof) && !Prepares(h[..k], h[k].setId)
  {
  }

  lemma ActivatedFollows(proof: Proof, h: seq<Event>, k: nat)
    requires k < |h| && h[k].kind.Activated?
    ensures MayFollow(proof, h[..k], h[k]) <==>
      h[k].kind.stamp == StampOf(proof) && k > 0 && h[k - 1].kind.Prepared? && h[k - 1].setId == h[k].setId
  {
  }

  lemma RecoveryFollows(proof: Proof, h: seq<Event>, k: nat)
    requires k < |h| && h[k].kind.Recovery?
    ensures MayFollow(proof, h[..k], h[k]) <==> h[k].kind.before == proof.snapshot
  {
  }

  /** Main theorem of the replay: with event numbers that tell events apart, a history is legal
      exactly when the owner's prior sets are and each event may follow those before it. */
  lemma LegalExactly(sets: seq<SetRow>, events: seq<Event>, owner: Owner)
    requires UniqueIds(events)
    ensures
      var h := ByRevision(History(events, owner));
      Legal(sets, events, owner) <==>
        PriorsOk(sets, owner) && AllContinue(sets, owner, h, |h|)
  {
    hide PriorsOk;
    hide EventOk;
    hide Continues;
    hide ByRevision;
    hide History;
    var h := ByRevision(History(events, owner));
    Replays(events, owner);
    EachFollows(sets, events, owner, h, |h|);
  }

  lemma {:induction false} EachFollows(sets: seq<SetRow>, events: seq<Event>, owner: Owner, h: seq<Event>, n: nat)
    requires Owned(events, owner, h) && n <= |h|
    ensures (forall k :: 0 <= k < n ==> EventOk(sets, events, owner, h, k)) <==> AllContinue(sets, owner, h, n)
  {
    hide EventOk;
    hide Continues;
    if n > 0 {
      EachFollows(sets, events, owner, h, n - 1);
      if forall k :: 0 <= k < n - 1 ==> EventOk(sets, events, owner, h, k) {
        FollowsExactly(sets, events, owner, h, n - 1);
      }
    }
  }
}

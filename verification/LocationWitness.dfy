/** Observing the roles of a closure so that what lies below an absent directory is recorded
    with the shallowest absent directory above it as its witness, and the check of such an
    inventory. What each observation finds is an input. */
module LocationWitness {
  import opened Paths
  import opened Text

  type Owner = string
  type RoleKey = string
  type Digest = string

  datatype Spec = Spec(owner: Owner, role: RoleKey, directory: bool, path: Text)

  datatype Outcome = Absent | Unreachable | Changed | Other(name: string)

  /** The witness of a role that cannot be reached, bound to its record by a digest. */
  datatype Ancestor = Ancestor(owner: Owner, role: RoleKey, digest: Digest)

  datatype Record = Record(spec: Spec, outcome: Outcome, ancestor: Option<Ancestor>, detail: string)

  /** What happens when a role's turn comes: whether the object and byte budgets allow it,
      whether the held witnesses still verify, and what observing the path finds. */
  datatype Visit = Visit(objects: bool, fits: bool, held: bool, found: Outcome, detail: string, recordFits: bool)

  // ----- Cohorts -----

  type Cohorts = seq<set<Spec>>

  predicate Together(cohorts: Cohorts, a: Spec, b: Spec) {
    exists g :: 0 <= g < |cohorts| && a in cohorts[g] && b in cohorts[g]
  }

  /** Directories that can become witnesses: those of some cohort. */
  predicate Leads(cohorts: Cohorts, s: Spec) {
    s.directory && exists g :: 0 <= g < |cohorts| && s in cohorts[g]
  }

  /** An absent directory of a shared cohort, properly above the role. */
  predicate Candidate(cohorts: Cohorts, s: Spec, r: Record) {
    && Together(cohorts, s, r.spec) && r.outcome.Absent? && r.spec.directory
    && r.spec.path != s.path && IsWithin(s.path, r.spec.path)
  }

  /** By names: the candidate's are a proper beginning of the role's, and one cohort holds both. */
  lemma CandidateMeans(cohorts: Cohorts, s: Spec, r: Record)
    requires Canonical(s.path) && Canonical(r.spec.path)
    ensures Candidate(cohorts, s, r) <==>
      && r.outcome == Absent && r.spec.directory
      && Names(r.spec.path) <= Names(s.path) && r.spec.path != s.path
      && exists cohort :: cohort in cohorts && s in cohort && r.spec in cohort
  {
    hide Names;
    hide IsWithin;
    WithinMeans(s.path, r.spec.path);
    if cohort :| cohort in cohorts && s in cohort && r.spec in cohort {
      var g :| 0 <= g < |cohorts| && cohorts[g] == cohort;
    }
  }

  // ----- The check -----

  /** The record a dictionary by owner and role holds: the last one. */
  function Lookup(observed: seq<Record>, owner: Owner, role: RoleKey): Option<Record> {
    if observed == [] then None
    else
      var last := observed[|observed| - 1];
      if last.spec.owner == owner && last.spec.role == role then Some(last)
      else Lookup(observed[..|observed| - 1], owner, role)
  }

  predicate Shallowest(cohorts: Cohorts, s: Spec, w: Record, observed: seq<Record>) {
    Candidate(cohorts, s, w) &&
    forall j :: 0 <= j < |observed| && Candidate(cohorts, s, observed[j]) ==>
      Depth(w.spec.path) <= Depth(observed[j].spec.path)
  }

  predicate DependentOk(cohorts: Cohorts, hash: Record -> Digest, observed: seq<Record>, r: Record) {
    r.ancestor.Some? &&
    var w := Lookup(observed, r.ancestor.value.owner, r.ancestor.value.role);
    w.Some? && hash(w.value) == r.ancestor.value.digest && Shallowest(cohorts, r.spec, w.value, observed)
  }

  predicate RecordOk(cohorts: Cohorts, hash: Record -> Digest, observed: seq<Record>, r: Record) {
    && (r.outcome.Absent? ==> forall j :: 0 <= j < |observed| ==> !Candidate(cohorts, r.spec, observed[j]))
    && (r.outcome.Unreachable? ==> DependentOk(cohorts, hash, observed, r))
  }

  /** No plain absence lies below an absent directory of its cohort, and every role that cannot
      be reached names the shallowest such directory above it. */
  predicate WitnessesOk(cohorts: Cohorts, hash: Record -> Digest, observed: seq<Record>) {
    forall i :: 0 <= i < |observed| ==> RecordOk(cohorts, hash, observed, observed[i])
  }

  /** Of two absent roles of one group, the second is a directory properly above the first. */
  predicate Nested(group: set<Spec>, r: Record, above: Record) {
    && r.spec in group && above.spec in group && r.outcome.Absent? && above.outcome.Absent? && above.spec.directory
    && above.spec.path != r.spec.path && IsWithin(r.spec.path, above.spec.path)
  }

  /** The absences of a group. */
  method AbsentIn(group: set<Spec>, observed: seq<Record>) returns (absent: seq<Record>)
    ensures forall r :: r in absent <==> r in observed && r.spec in group && r.outcome.Absent?
  {
    absent := [];
    for i := 0 to |observed|
      invariant forall r :: r in absent <==> r in observed[..i] && r.spec in group && r.outcome.Absent?
    {
      assert observed[..i + 1] == observed[..i] + [observed[i]];
      if observed[i].spec in group && observed[i].outcome.Absent? { absent := absent + [observed[i]]; }
    }
    assert observed[..|observed|] == observed;
  }

  /** No two records of the inventory are nested in the group. */
  ghost predicate Flat(group: set<Spec>, observed: seq<Record>) {
    forall r, above :: r in observed && above in observed ==> !Nested(group, r, above)
  }

  method GroupOk(group: set<Spec>, observed: seq<Record>) returns (ok: bool)
    ensures ok <==> Flat(group, observed)
  {
    hide IsWithin;
    var absent := AbsentIn(group, observed);
    for i := 0 to |absent|
      invariant forall k, j :: 0 <= k < i && 0 <= j < |absent| ==> !Nested(group, absent[k], absent[j])
    {
      for j := 0 to |absent|
        invariant forall k :: 0 <= k < j ==> !Nested(group, absent[i], absent[k])
      {
        var r, above := absent[i], absent[j];
        if above.spec.directory && above.spec.path != r.spec.path && IsWithin(r.spec.path, above.spec.path) {
          assert r in absent && above in absent && Nested(group, r, above);
          return false;
        }
      }
    }
    forall r, above | r in observed && above in observed ensures !Nested(group, r, above) {
      assert Nested(group, r, above) ==> r in absent && above in absent;
    }
    ok := true;
  }

  /** With flat groups no absence has a candidate above it, and the other way round. */
  lemma FlatGroups(cohorts: Cohorts, observed: seq<Record>)
    ensures (forall g :: 0 <= g < |cohorts| ==> Flat(cohorts[g], observed)) <==>
      forall r, above :: r in observed && above in observed && r.outcome.Absent? ==> !Candidate(cohorts, r.spec, above)
  {
    hide IsWithin;
    if forall g :: 0 <= g < |cohorts| ==> Flat(cohorts[g], observed) {
      forall r, above | r in observed && above in observed && r.outcome.Absent?
        ensures !Candidate(cohorts, r.spec, above)
      {
        forall g | 0 <= g < |cohorts| && r.spec in cohorts[g] && above.spec in cohorts[g]
          ensures !Nested(cohorts[g], r, above)
        {
          assert Flat(cohorts[g], observed);
        }
      }
    } else {
      var g :| 0 <= g < |cohorts| && !Flat(cohorts[g], observed);
      var r, above :| r in observed && above in observed && Nested(cohorts[g], r, above);
      assert Candidate(cohorts, r.spec, above);
    }
  }

  method ByKey(observed: seq<Record>) returns (byKey: map<(Owner, RoleKey), Record>)
    ensures forall o, k :: Lookup(observed, o, k) == if (o, k) in byKey then Some(byKey[(o, k)]) else None
  {
    byKey := map[];
    for i := 0 to |observed|
      invariant forall o, k :: Lookup(observed[..i], o, k) == if (o, k) in byKey then Some(byKey[(o, k)]) else None
    {
      assert observed[..i + 1][..i] == observed[..i];
      byKey := byKey[(observed[i].spec.owner, observed[i].spec.role) := observed[i]];
    }
    assert observed[..|observed|] == observed;
  }

  /** The specs of all candidate records above a role. */
  ghost predicate Gathered(cohorts: Cohorts, s: Spec, observed: seq<Record>, candidates: set<Spec>) {
    forall c :: c in candidates <==> exists r :: r in observed && r.spec == c && Candidate(cohorts, s, r)
  }

  method CandidatesAbove(cohorts: Cohorts, s: Spec, observed: seq<Record>) returns (candidates: set<Spec>)
    ensures Gathered(cohorts, s, observed, candidates)
  {
    hide IsWithin;
    candidates := {};
    for g := 0 to |cohorts|
      invariant Gathered(cohorts[..g], s, observed, candidates)
    {
      if s in cohorts[g] {
        ghost var before := candidates;
        for i := 0 to |observed|
          invariant forall c :: c in candidates <==>
            c in before || exists r :: r in observed[..i] && r.spec == c && Above(cohorts[g], s, r)
        {
          var r := observed[i];
          assert observed[..i + 1] == observed[..i] + [r];
          if r.spec in cohorts[g] && r.outcome.Absent? && r.spec.directory && r.spec.path != s.path
             && IsWithin(s.path, r.spec.path) {
            candidates := candidates + {r.spec};
          }
        }
        assert observed[..|observed|] == observed;
      }
      OneMoreGroup(cohorts, g, s);
    }
    assert cohorts[..|cohorts|] == cohorts;
  }

  /** A candidate by way of one group. */
  predicate Above(group: set<Spec>, s: Spec, r: Record) {
    && r.spec in group && r.outcome.Absent? && r.spec.directory
    && r.spec.path != s.path && IsWithin(s.path, r.spec.path)
  }

  lemma OneMoreGroup(cohorts: Cohorts, g: nat, s: Spec)
    requires g < |cohorts|
    ensures forall r :: Candidate(cohorts[..g + 1], s, r) <==>
      Candidate(cohorts[..g], s, r) || (s in cohorts[g] && Above(cohorts[g], s, r))
  {
    hide IsWithin;
    forall r: Record ensures Together(cohorts[..g + 1], s, r.spec) <==>
      Together(cohorts[..g], s, r.spec) || (s in cohorts[g] && r.spec in cohorts[g])
    {
      if Together(cohorts[..g], s, r.spec) {
        var h :| 0 <= h < g && s in cohorts[..g][h] && r.spec in cohorts[..g][h];
        assert s in cohorts[..g + 1][h] && r.spec in cohorts[..g + 1][h];
      }
      if s in cohorts[g] && r.spec in cohorts[g] {
        assert s in cohorts[..g + 1][g] && r.spec in cohorts[..g + 1][g];
      }
    }
  }

  method MinDepth(specs: set<Spec>) returns (depth: nat)
    requires specs != {}
    ensures exists c :: c in specs && Depth(c.path) == depth
    ensures forall c :: c in specs ==> depth <= Depth(c.path)
  {
    hide Depth;
    var c :| c in specs;
    depth := Depth(c.path);
    var done := {c};
    while specs - done != {}
      invariant done <= specs && c in specs && Depth(c.path) == depth
      invariant forall d :: d in done ==> depth <= Depth(d.path)
      decreases specs - done
    {
      var d :| d in specs - done;
      if Depth(d.path) < depth { c, depth := d, Depth(d.path); }
      done := done + {d};
    }
    forall d | d in specs ensures depth <= Depth(d.path) { assert d !in specs - done; }
  }

  /** One role that cannot be reached: its witness is the record it is bound to, is a candidate
      above it and as shallow as any. */
  method DependentPasses(cohorts: Cohorts, hash: Record -> Digest, observed: seq<Record>,
                         byKey: map<(Owner, RoleKey), Record>, r: Record) returns (ok: bool)
    requires forall o, k :: Lookup(observed, o, k) == if (o, k) in byKey then Some(byKey[(o, k)]) else None
    ensures ok <==> DependentOk(cohorts, hash, observed, r)
  {
    hide Candidate;
    hide Lookup;
    hide Depth;
    if r.ancestor.None? { return false; }
    var key := (r.ancestor.value.owner, r.ancestor.value.role);
    if key !in byKey { return false; }
    var w := byKey[key];
    LookupMember(observed, key.0, key.1);
    OnlyAbsentDirectories(cohorts, r.spec);
    if !w.outcome.Absent? || !w.spec.directory || hash(w) != r.ancestor.value.digest { return false; }
    var candidates := CandidatesAbove(cohorts, r.spec, observed);
    AmongCandidates(cohorts, r.spec, observed, candidates, w);
    if candidates == {} || w.spec !in candidates { return false; }
    var depth := MinDepth(candidates);
    ok := Depth(w.spec.path) == depth;
  }

  lemma {:induction false} LookupMember(observed: seq<Record>, o: Owner, k: RoleKey)
    ensures Lookup(observed, o, k).Some? ==> Lookup(observed, o, k).value in observed
  {
    if observed != [] { LookupMember(observed[..|observed| - 1], o, k); }
  }

  lemma OnlyAbsentDirectories(cohorts: Cohorts, s: Spec)
    ensures forall r :: Candidate(cohorts, s, r) ==> r.outcome.Absent? && r.spec.directory
  {
  }

  /** Being a candidate is a matter of the spec alone once a record is an absent directory. */
  lemma AmongCandidates(cohorts: Cohorts, s: Spec, observed: seq<Record>, candidates: set<Spec>, w: Record)
    requires Gathered(cohorts, s, observed, candidates) && w in observed && w.outcome.Absent? && w.spec.directory
    ensures w.spec in candidates <==> Candidate(cohorts, s, w)
    ensures forall j :: 0 <= j < |observed| && Candidate(cohorts, s, observed[j]) ==> observed[j].spec in candidates
    ensures forall c :: c in candidates ==>
      exists j :: 0 <= j < |observed| && Candidate(cohorts, s, observed[j]) && observed[j].spec == c
  {
    hide IsWithin;
    forall j | 0 <= j < |observed| && Candidate(cohorts, s, observed[j]) ensures observed[j].spec in candidates {
      assert observed[j] in observed;
    }
    if w.spec in candidates {
      var r :| r in observed && r.spec == w.spec && Candidate(cohorts, s, r);
    }
  }

  /** The check, group by group and then dependent by dependent. */
  method Validate(version: nat, cohorts: Cohorts, hash: Record -> Digest, observed: seq<Record>) returns (ok: bool)
    ensures version == 2 ==> (ok <==> WitnessesOk(cohorts, hash, observed))
    ensures version != 2 ==> (ok <==> forall i :: 0 <= i < |observed| ==> !observed[i].outcome.Unreachable?)
  {
    hide Candidate;
    hide DependentOk;
    hide Flat;
    hide Lookup;
    if version != 2 {
      return forall i :: 0 <= i < |observed| ==> !observed[i].outcome.Unreachable?;
    }
    FlatGroups(cohorts, observed);
    MembersOk(cohorts, hash, observed);
    for g := 0 to |cohorts|
      invariant forall h :: 0 <= h < g ==> Flat(cohorts[h], observed)
    {
      var flat := GroupOk(cohorts[g], observed);
      if !flat { return false; }
    }
    var byKey := ByKey(observed);
    for i := 0 to |observed|
      invariant forall k :: 0 <= k < i && observed[k].outcome.Unreachable? ==>
        DependentOk(cohorts, hash, observed, observed[k])
    {
      if observed[i].outcome.Unreachable? {
        var passes := DependentPasses(cohorts, hash, observed, byKey, observed[i]);
        if !passes { return false; }
      }
    }
    ok := true;
  }

  lemma MembersOk(cohorts: Cohorts, hash: Record -> Digest, observed: seq<Record>)
    ensures WitnessesOk(cohorts, hash, observed) <==>
      && (forall r, above :: r in observed && above in observed && r.outcome.Absent? ==>
        !Candidate(cohorts, r.spec, above))
      && forall i :: 0 <= i < |observed| && observed[i].outcome.Unreachable? ==>
        DependentOk(cohorts, hash, observed, observed[i])
  {
    hide Candidate;
    hide DependentOk;
    if WitnessesOk(cohorts, hash, observed) {
      forall r, above | r in observed && above in observed && r.outcome.Absent?
        ensures !Candidate(cohorts, r.spec, above)
      {
        var i, j :| 0 <= i < |observed| && observed[i] == r && 0 <= j < |observed| && observed[j] == above;
        assert RecordOk(cohorts, hash, observed, observed[i]);
      }
      forall i | 0 <= i < |observed| && observed[i].outcome.Unreachable?
        ensures DependentOk(cohorts, hash, observed, observed[i])
      {
        assert RecordOk(cohorts, hash, observed, observed[i]);
      }
    }
    if forall r, above :: r in observed && above in observed && r.outcome.Absent? ==>
       !Candidate(cohorts, r.spec, above) {
      forall i, j | 0 <= i < |observed| && 0 <= j < |observed| && observed[i].outcome.Absent?
        ensures !Candidate(cohorts, observed[i].spec, observed[j])
      {
        assert observed[i] in observed && observed[j] in observed;
      }
    }
  }

  // ----- The order of acquisition -----

  /** Directories that can become witnesses come first, the shallow ones before the deep. */
  predicate Before(roles: seq<Spec>, cohorts: Cohorts, i: nat, j: nat)
    requires i < |roles| && j < |roles|
  {
    var a, b := Leads(cohorts, roles[i]), Leads(cohorts, roles[j]);
    if a != b then a
    else if a && Depth(roles[i].path) != Depth(roles[j].path) then Depth(roles[i].path) < Depth(roles[j].path)
    else i < j
  }

  predicate Ordered(roles: seq<Spec>, cohorts: Cohorts, acquisition: seq<nat>) {
    && (forall a :: 0 <= a < |acquisition| ==> acquisition[a] < |roles|)
    && (forall a, b :: 0 <= a < b < |acquisition| ==> Before(roles, cohorts, acquisition[a], acquisition[b]))
  }

  method Place(roles: seq<Spec>, cohorts: Cohorts, acquisition: seq<nat>, i: nat) returns (at: nat)
    requires Ordered(roles, cohorts, acquisition) && i < |roles| && i !in acquisition
    ensures at <= |acquisition| && Ordered(roles, cohorts, acquisition[..at] + [i] + acquisition[at..])
  {
    hide Leads;
    hide Depth;
    at := 0;
    while at < |acquisition| && Before(roles, cohorts, acquisition[at], i)
      invariant 0 <= at <= |acquisition|
      invariant forall a :: 0 <= a < at ==> Before(roles, cohorts, acquisition[a], i)
    {
      at := at + 1;
    }
    forall a | at <= a < |acquisition| ensures Before(roles, cohorts, i, acquisition[a]) {
      assert acquisition[at] in acquisition;
      assert Before(roles, cohorts, i, acquisition[at]);
      assert at < a ==> Before(roles, cohorts, acquisition[at], acquisition[a]);
    }
  }

  method SortRoles(roles: seq<Spec>, cohorts: Cohorts) returns (acquisition: seq<nat>)
    ensures Ordered(roles, cohorts, acquisition) && |acquisition| == |roles|
    ensures forall i :: 0 <= i < |roles| ==> i in acquisition
  {
    hide Before;
    acquisition := [];
    for i := 0 to |roles|
      invariant |acquisition| == i && Ordered(roles, cohorts, acquisition)
      invariant forall j :: 0 <= j < |roles| ==> (j in acquisition <==> j < i)
    {
      var at := Place(roles, cohorts, acquisition, i);
      Inserted(acquisition, at, i);
      acquisition := acquisition[..at] + [i] + acquisition[at..];
    }
  }

  lemma Inserted(s: seq<nat>, at: nat, i: nat)
    requires at <= |s|
    ensures forall j :: j in s[..at] + [i] + s[at..] <==> j in s || j == i
  {
    assert s == s[..at] + s[at..];
  }

  // ----- The observation -----

  type Records = map<nat, Record>

  /** Each record is about its own role. */
  predicate About(roles: seq<Spec>, records: Records) {
    forall i :: i in records ==> i < |roles| && records[i].spec == roles[i]
  }

  /** The candidate above role `m` that comes first by depth and then by place in the closure. */
  predicate Chosen(roles: seq<Spec>, cohorts: Cohorts, records: Records, m: nat, w: nat)
    requires m < |roles|
  {
    && w in records && Candidate(cohorts, roles[m], records[w])
    && forall j :: j in records && Candidate(cohorts, roles[m], records[j]) ==>
         Depth(records[w].spec.path) < Depth(records[j].spec.path)
         || (Depth(records[w].spec.path) == Depth(records[j].spec.path) && w <= j)
  }

  predicate NoCandidate(roles: seq<Spec>, cohorts: Cohorts, records: Records, m: nat)
    requires m < |roles|
  {
    forall j :: j in records ==> !Candidate(cohorts, roles[m], records[j])
  }

  function AncestorOf(hash: Record -> Digest, w: Record): Ancestor { Ancestor(w.spec.owner, w.spec.role, hash(w)) }

  /** How the record of a role follows from the others: with no candidate above it, it says what
      was found; otherwise it names the chosen witness if the held witnesses verify, and says that
      something changed if they do not. */
  predicate Entered(roles: seq<Spec>, cohorts: Cohorts, hash: Record -> Digest, visits: seq<Visit>,
          records: Records, m: nat)
    requires |visits| == |roles| && m < |roles| && m in records
  {
    if NoCandidate(roles, cohorts, records, m) then
      records[m] == Record(roles[m], visits[m].found, None, visits[m].detail)
    else if visits[m].held then
      exists w :: w in records && Chosen(roles, cohorts, records, m, w)
        && records[m] == Record(roles[m], Unreachable, Some(AncestorOf(hash, records[w])), "")
    else records[m] == Record(roles[m], Changed, None, "")
  }

  predicate AllEntered(roles: seq<Spec>, cohorts: Cohorts, hash: Record -> Digest, visits: seq<Visit>, records: Records)
    requires |visits| == |roles|
  {
    About(roles, records) && forall i :: i in records ==> Entered(roles, cohorts, hash, visits, records, i)
  }

  /** What the readers of the closure hand over. */
  predicate Given(roles: seq<Spec>, visits: seq<Visit>) {
    && |visits| == |roles|
    && (forall i, j :: 0 <= i < j < |roles| ==> roles[i].owner != roles[j].owner || roles[i].role != roles[j].role)
    && (forall i :: 0 <= i < |roles| ==> Canonical(roles[i].path))
    && (forall i :: 0 <= i < |roles| ==> !visits[i].found.Unreachable?)
    && (forall i :: 0 <= i < |roles| && roles[i].path == [SLASH] ==> !visits[i].found.Absent?)
  }

  /** The minimum over the candidates among the records so far. */
  method ChooseWitness(roles: seq<Spec>, cohorts: Cohorts, records: Records, m: nat) returns (w: Option<nat>)
    requires m < |roles| && About(roles, records)
    ensures w.None? <==> NoCandidate(roles, cohorts, records, m)
    ensures w.Some? ==> Chosen(roles, cohorts, records, m, w.value)
  {
    hide Candidate;
    hide Depth;
    w := None;
    for j := 0 to |roles|
      invariant w.None? ==> forall i :: i in records && i < j ==> !Candidate(cohorts, roles[m], records[i])
      invariant w.Some? ==> w.value in records && w.value < j && Candidate(cohorts, roles[m], records[w.value])
      invariant w.Some? ==> forall i :: i in records && i < j && Candidate(cohorts, roles[m], records[i]) ==>
        Depth(records[w.value].spec.path) < Depth(records[i].spec.path)
        || (Depth(records[w.value].spec.path) == Depth(records[i].spec.path) && w.value <= i)
    {
      if j in records && Candidate(cohorts, roles[m], records[j])
         && (w.None? || Depth(records[j].spec.path) < Depth(records[w.value].spec.path)) {
        w := Some(j);
      }
    }
  }

  /** A role that comes later is no candidate above one that came earlier: it is not a
      leading directory, or it is deeper, or it is the root, which is never absent. */
  lemma LaterIsNoCandidate(roles: seq<Spec>, cohorts: Cohorts, i: nat, m: nat, r: Record)
    requires i < |roles| && m < |roles| && Before(roles, cohorts, i, m) && r.spec == roles[m]
    requires Canonical(roles[m].path) && (roles[m].path == [SLASH] ==> !r.outcome.Absent?)
    ensures !Candidate(cohorts, roles[i], r)
  {
    hide Depth;
    hide IsWithin;
    if Candidate(cohorts, roles[i], r) { BelowIsDeeper(roles[i].path, roles[m].path); }
  }

  lemma ChosenStays(roles: seq<Spec>, cohorts: Cohorts, records: Records, m: nat, r: Record, i: nat, w: nat)
    requires i < |roles| && m !in records && Chosen(roles, cohorts, records, i, w) && !Candidate(cohorts, roles[i], r)
    ensures Chosen(roles, cohorts, records[m := r], i, w)
  {
    hide Candidate;
    hide Depth;
  }

  lemma NoCandidateStays(roles: seq<Spec>, cohorts: Cohorts, records: Records, m: nat, r: Record, i: nat)
    requires i < |roles| && m !in records && !Candidate(cohorts, roles[i], r)
    ensures NoCandidate(roles, cohorts, records[m := r], i) <==> NoCandidate(roles, cohorts, records, i)
  {
    hide Candidate;
    var more := records[m := r];
    if !NoCandidate(roles, cohorts, records, i) {
      var j :| j in records && Candidate(cohorts, roles[i], records[j]);
      assert more[j] == records[j];
    }
  }

  /** Entering the record of the next role keeps the earlier ones right. */
  lemma EnterKeeps(roles: seq<Spec>, cohorts: Cohorts, hash: Record -> Digest, visits: seq<Visit>, records: Records,
          m: nat, r: Record, i: nat)
    requires |visits| == |roles| && m < |roles| && m !in records && i in records && About(roles, records)
    requires Entered(roles, cohorts, hash, visits, records, i) && !Candidate(cohorts, roles[i], r)
    ensures Entered(roles, cohorts, hash, visits, records[m := r], i)
  {
    hide Candidate;
    hide Chosen;
    hide NoCandidate;
    var more := records[m := r];
    NoCandidateStays(roles, cohorts, records, m, r, i);
    if !NoCandidate(roles, cohorts, records, i) && visits[i].held {
      var w :| w in records && Chosen(roles, cohorts, records, i, w)
        && records[i] == Record(roles[i], Unreachable, Some(AncestorOf(hash, records[w])), "");
      ChosenStays(roles, cohorts, records, m, r, i, w);
      assert more[w] == records[w];
    }
  }

  /** No role is a candidate above itself. */
  lemma NotAboveItself(cohorts: Cohorts, s: Spec, r: Record)
    requires r.spec == s
    ensures !Candidate(cohorts, s, r)
  {
  }

  /** The record that the choice of a witness, or of none, leads to. */
  predicate Follows(roles: seq<Spec>, cohorts: Cohorts, hash: Record -> Digest, visits: seq<Visit>, records: Records,
                    m: nat, r: Record, w: Option<nat>)
    requires |visits| == |roles| && m < |roles|
  {
    match w
    case None =>
      NoCandidate(roles, cohorts, records, m) && r == Record(roles[m], visits[m].found, None, visits[m].detail)
    case Some(i) =>
      && Chosen(roles, cohorts, records, m, i)
      && r == if visits[m].held then Record(roles[m], Unreachable, Some(AncestorOf(hash, records[i])), "")
              else Record(roles[m], Changed, None, "")
  }

  lemma EnterNew(roles: seq<Spec>, cohorts: Cohorts, hash: Record -> Digest, visits: seq<Visit>, records: Records,
          m: nat, r: Record, w: Option<nat>)
    requires |visits| == |roles| && m < |roles| && m !in records && r.spec == roles[m] && About(roles, records)
    requires Follows(roles, cohorts, hash, visits, records, m, r, w)
    ensures Entered(roles, cohorts, hash, visits, records[m := r], m)
  {
    hide Candidate;
    hide Depth;
    var more := records[m := r];
    NotAboveItself(cohorts, roles[m], r);
    if w.Some? {
      assert more[w.value] == records[w.value];
      assert Chosen(roles, cohorts, more, m, w.value);
    }
  }

  lemma EnterAll(roles: seq<Spec>, cohorts: Cohorts, hash: Record -> Digest, visits: seq<Visit>, records: Records,
          m: nat, r: Record, w: Option<nat>)
    requires Given(roles, visits) && AllEntered(roles, cohorts, hash, visits, records)
    requires m < |roles| && m !in records && r.spec == roles[m]
    requires Follows(roles, cohorts, hash, visits, records, m, r, w)
    requires forall i :: i in records ==> Before(roles, cohorts, i, m)
    ensures AllEntered(roles, cohorts, hash, visits, records[m := r])
  {
    hide Candidate;
    hide Depth;
    hide Entered;
    hide Before;
    hide Chosen;
    hide NoCandidate;
    EnterNew(roles, cohorts, hash, visits, records, m, r, w);
    forall i | i in records ensures Entered(roles, cohorts, hash, visits, records[m := r], i) {
      LaterIsNoCandidate(roles, cohorts, i, m, r);
      EnterKeeps(roles, cohorts, hash, visits, records, m, r, i);
    }
  }

  /** The observed records in the order of the closure. */
  function InOrder(records: Records, n: nat): seq<Record> {
    if n == 0 then [] else InOrder(records, n - 1) + if n - 1 in records then [records[n - 1]] else []
  }

  lemma {:induction false} InOrderMembers(records: Records, n: nat)
    ensures forall r :: r in InOrder(records, n) <==> exists i :: 0 <= i < n && i in records && records[i] == r
  {
    if n > 0 { InOrderMembers(records, n - 1); }
  }

  /** With distinct keys, looking a role up finds its own record. */
  lemma {:induction false} LookupFinds(roles: seq<Spec>, visits: seq<Visit>, records: Records, n: nat, w: nat)
    requires Given(roles, visits) && About(roles, records) && n <= |roles| && w in records && w < n
    ensures Lookup(InOrder(records, n), roles[w].owner, roles[w].role) == Some(records[w])
  {
    var observed := InOrder(records, n);
    if n - 1 in records {
      assert observed[..|observed| - 1] == InOrder(records, n - 1);
    } else {
      assert observed == InOrder(records, n - 1);
    }
    if w < n - 1 { LookupFinds(roles, visits, records, n - 1, w); }
  }

  /** Records entered right pass the check. */
  lemma EnteredPasses(roles: seq<Spec>, cohorts: Cohorts, hash: Record -> Digest, visits: seq<Visit>, records: Records)
    requires Given(roles, visits) && AllEntered(roles, cohorts, hash, visits, records)
    ensures WitnessesOk(cohorts, hash, InOrder(records, |roles|))
  {
    hide Candidate;
    hide Depth;
    hide InOrder;
    hide Lookup;
    var observed := InOrder(records, |roles|);
    InOrderMembers(records, |roles|);
    forall k | 0 <= k < |observed| ensures RecordOk(cohorts, hash, observed, observed[k]) {
      assert observed[k] in observed;
      var i :| i in records && records[i] == observed[k];
      EntryPasses(roles, cohorts, hash, visits, records, i);
    }
  }

  lemma EntryPasses(roles: seq<Spec>, cohorts: Cohorts, hash: Record -> Digest, visits: seq<Visit>,
          records: Records, i: nat)
    requires Given(roles, visits) && About(roles, records) && i in records
      && Entered(roles, cohorts, hash, visits, records, i)
    ensures RecordOk(cohorts, hash, InOrder(records, |roles|), records[i])
  {
    hide Candidate;
    hide Depth;
    hide InOrder;
    hide Lookup;
    hide IsWithin;
    hide Canonical;
    hide Together;
    var observed := InOrder(records, |roles|);
    InOrderMembers(records, |roles|);
    if records[i].outcome.Absent? {
      forall j | 0 <= j < |observed| ensures !Candidate(cohorts, records[i].spec, observed[j]) {
        assert observed[j] in observed;
      }
    }
    if records[i].outcome.Unreachable? {
      var w :| w in records && Chosen(roles, cohorts, records, i, w)
        && records[i] == Record(roles[i], Unreachable, Some(AncestorOf(hash, records[w])), "");
      LookupFinds(roles, visits, records, |roles|, w);
      forall j | 0 <= j < |observed| && Candidate(cohorts, roles[i], observed[j])
        ensures Depth(records[w].spec.path) <= Depth(observed[j].spec.path)
      {
        assert observed[j] in observed;
      }
    }
  }

  /** After a late race nothing stays complete. */
  function Invalidated(records: Records): Records {
    map i | i in records :: Record(records[i].spec, Changed, None, "")
  }

  lemma InvalidatedPasses(cohorts: Cohorts, hash: Record -> Digest, records: Records, n: nat)
    ensures WitnessesOk(cohorts, hash, InOrder(Invalidated(records), n))
    ensures forall r :: r in InOrder(Invalidated(records), n) ==> r.outcome.Changed? && r.ancestor.None?
  {
    hide Candidate;
    var observed := InOrder(Invalidated(records), n);
    InOrderMembers(Invalidated(records), n);
    forall k | 0 <= k < |observed| ensures observed[k].outcome.Changed? { assert observed[k] in observed; }
  }

  /** The budgets allow this visit. */
  predicate Allowed(visit: Visit) { visit.objects && visit.fits && visit.recordFits }

  /** Acquisition gets as far as this role: the budgets allow it and everything acquired before. */
  predicate Reached(roles: seq<Spec>, cohorts: Cohorts, visits: seq<Visit>, i: nat)
    requires |visits| == |roles| && i < |roles|
  {
    Allowed(visits[i]) && forall j :: 0 <= j < |roles| && Before(roles, cohorts, j, i) ==> Allowed(visits[j])
  }

  /** The records behind an inventory: those of the roles that acquisition reaches. */
  predicate Explains(roles: seq<Spec>, cohorts: Cohorts, hash: Record -> Digest, visits: seq<Visit>, records: Records)
    requires |visits| == |roles|
  {
    && AllEntered(roles, cohorts, hash, visits, records)
    && forall i :: 0 <= i < |roles| ==> (i in records <==> Reached(roles, cohorts, visits, i))
  }

  lemma AllReached(roles: seq<Spec>, cohorts: Cohorts, visits: seq<Visit>, records: Records, acquisition: seq<nat>,
          k: nat)
    requires |visits| == |roles| && k <= |acquisition| && Ordered(roles, cohorts, acquisition)
    requires forall i :: 0 <= i < |roles| ==> i in acquisition
    requires forall i :: i in records <==> i in acquisition[..k]
    requires forall a :: 0 <= a < k ==> Allowed(visits[acquisition[a]])
    requires k < |acquisition| ==> !Allowed(visits[acquisition[k]])
    ensures forall i :: 0 <= i < |roles| ==> (i in records <==> Reached(roles, cohorts, visits, i))
    ensures k == |acquisition| <==> forall i :: 0 <= i < |roles| ==> Allowed(visits[i])
  {
    hide Before;
    hide Allowed;
    forall i | 0 <= i < |roles| ensures i in records <==> Reached(roles, cohorts, visits, i) {
      assert i in acquisition;
      var a :| 0 <= a < |acquisition| && acquisition[a] == i;
      if a < k {
        assert acquisition[..k][a] == i;
        forall j | 0 <= j < |roles| && Before(roles, cohorts, j, i) ensures Allowed(visits[j]) {
          assert j in acquisition;
          var b :| 0 <= b < |acquisition| && acquisition[b] == j;
          NotBoth(roles, cohorts, j, i);
        }
      } else {
        forall b | 0 <= b < k ensures acquisition[b] != i { NotBoth(roles, cohorts, i, i); }
        assert i == acquisition[k] || Before(roles, cohorts, acquisition[k], i);
      }
    }
    if k == |acquisition| {
      forall i | 0 <= i < |roles| ensures Allowed(visits[i]) {
        assert i in acquisition;
      }
    }
  }

  lemma NotBoth(roles: seq<Spec>, cohorts: Cohorts, i: nat, j: nat)
    requires i < |roles| && j < |roles|
    ensures !(Before(roles, cohorts, i, j) && Before(roles, cohorts, j, i))
  {
    hide Leads;
    hide Depth;
  }

  /** The key a role is sorted by: leading directories of cohorts first, among them by the number of
      parts of their paths, then by place in the closure. */
  function SortKey(roles: seq<Spec>, cohorts: Cohorts, i: nat): (int, int, int)
    requires i < |roles|
  {
    if roles[i].directory && exists g :: 0 <= g < |cohorts| && roles[i] in cohorts[g]
    then (0, |Split(roles[i].path)|, i) else (1, 0, i)
  }

  predicate KeyLess(a: (int, int, int), b: (int, int, int)) {
    a.0 < b.0 || (a.0 == b.0 && (a.1 < b.1 || (a.1 == b.1 && a.2 < b.2)))
  }

  lemma BeforeByKey(roles: seq<Spec>, cohorts: Cohorts, i: nat, j: nat)
    requires i < |roles| && j < |roles|
    ensures Before(roles, cohorts, i, j) <==> KeyLess(SortKey(roles, cohorts, i), SortKey(roles, cohorts, j))
  {
    DepthCounts(roles[i].path);
    DepthCounts(roles[j].path);
  }

  /** The observation. Whatever is found, however early a budget ends it and whether or not a
      late race invalidates it, the inventory passes the check. It is determined by what is found:
      it holds the roles that acquisition reaches, all of them exactly when every budget allows,
      and unless invalidated each record is what was found exactly when no absent cohort directory
      lies above its role, and otherwise unreachable exactly when the held witnesses verify. */
  method Observe(roles: seq<Spec>, cohorts: Cohorts, hash: Record -> Digest, visits: seq<Visit>, late: bool)
    returns (observed: seq<Record>, complete: bool)
    requires Given(roles, visits)
    ensures WitnessesOk(cohorts, hash, observed)
    ensures exists records ::
      && Explains(roles, cohorts, hash, visits, records)
      && observed == InOrder(if late then Invalidated(records) else records, |roles|)
    ensures complete <==> forall i :: 0 <= i < |roles| ==> Allowed(visits[i])
    ensures late ==> forall r :: r in observed ==> r.outcome.Changed? && r.ancestor.None?
  {
    hide Candidate;
    hide AllEntered;
    hide Before;
    hide Follows;
    hide InOrder;
    hide WitnessesOk;
    hide Reached;
    hide Invalidated;
    var acquisition := SortRoles(roles, cohorts);
    var records: Records := map[];
    complete := true;
    var k := 0;
    NothingEntered(roles, cohorts, hash, visits);
    while k < |acquisition| && complete
      invariant 0 <= k <= |acquisition|
      invariant AllEntered(roles, cohorts, hash, visits, records)
      invariant forall i :: i in records <==> i in acquisition[..k]
      invariant forall a :: 0 <= a < k ==> Allowed(visits[acquisition[a]])
      invariant !complete ==> k < |acquisition| && !Allowed(visits[acquisition[k]])
      decreases |acquisition| - k, complete
    {
      var m := acquisition[k];
      var visit := visits[m];
      NotYet(roles, cohorts, acquisition, k);
      if !visit.objects {
        complete := false;
      } else {
        EnteredAbout(roles, cohorts, hash, visits, records);
        var w := ChooseWitness(roles, cohorts, records, m);
        if !visit.fits {
          complete := false;
        } else {
          var r :=
            if w.None? then Record(roles[m], visit.found, None, visit.detail)
            else if visit.held then Record(roles[m], Unreachable, Some(AncestorOf(hash, records[w.value])), "")
            else Record(roles[m], Changed, None, "");
          ItFollows(roles, cohorts, hash, visits, records, m, r, w);
          if !visit.recordFits {
            complete := false;
          } else {
            EnterAll(roles, cohorts, hash, visits, records, m, r, w);
            records := records[m := r];
            assert acquisition[..k + 1] == acquisition[..k] + [m];
            k := k + 1;
          }
        }
      }
    }
    AllReached(roles, cohorts, visits, records, acquisition, k);
    assert Explains(roles, cohorts, hash, visits, records);
    if late {
      InvalidatedPasses(cohorts, hash, records, |roles|);
      observed := InOrder(Invalidated(records), |roles|);
    } else {
      EnteredPasses(roles, cohorts, hash, visits, records);
      observed := InOrder(records, |roles|);
    }
  }

  lemma NothingEntered(roles: seq<Spec>, cohorts: Cohorts, hash: Record -> Digest, visits: seq<Visit>)
    requires |visits| == |roles|
    ensures AllEntered(roles, cohorts, hash, visits, map[])
  {
  }

  lemma EnteredAbout(roles: seq<Spec>, cohorts: Cohorts, hash: Record -> Digest, visits: seq<Visit>, records: Records)
    requires |visits| == |roles| && AllEntered(roles, cohorts, hash, visits, records)
    ensures About(roles, records)
  {
  }

  lemma ItFollows(roles: seq<Spec>, cohorts: Cohorts, hash: Record -> Digest, visits: seq<Visit>, records: Records,
                  m: nat, r: Record, w: Option<nat>)
    requires |visits| == |roles| && m < |roles|
    requires w.None? ==>
      NoCandidate(roles, cohorts, records, m) && r == Record(roles[m], visits[m].found, None, visits[m].detail)
    requires w.Some? ==> Chosen(roles, cohorts, records, m, w.value)
    requires w.Some? ==>
      r == if visits[m].held then Record(roles[m], Unreachable, Some(AncestorOf(hash, records[w.value])), "")
           else Record(roles[m], Changed, None, "")
    ensures Follows(roles, cohorts, hash, visits, records, m, r, w)
  {
    hide Candidate;
  }

  /** The next role comes after all those acquired so far and is not one of them. */
  lemma NotYet(roles: seq<Spec>, cohorts: Cohorts, acquisition: seq<nat>, k: nat)
    requires Ordered(roles, cohorts, acquisition) && k < |acquisition|
    ensures acquisition[k] < |roles|
    ensures forall i :: i in acquisition[..k] ==>
      i < |roles| && i != acquisition[k] && Before(roles, cohorts, i, acquisition[k])
  {
    hide Leads;
    hide Depth;
  }
}

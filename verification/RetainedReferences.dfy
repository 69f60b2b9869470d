/** The check that no retained file is hit by an effect of another owner: a search for each
    effect's path prefix among the sorted referenced paths. */
module RetainedReferences {
  import opened Paths
  import opened Text

  type Owner = string
  type Role = string

  datatype Reference = Reference(owner: Owner, role: Role)

  /** An effect on one path, and on everything below it when `subtree` is set. */
  datatype Effect = Effect(owner: Owner, path: Text, subtree: bool)

  /** The owner of an effect may touch this role of another owner. */
  datatype Permission = Permission(owner: Owner, other: Owner, role: Role)

  type References = map<Text, set<Reference>>

  // ----- What the check decides -----

  predicate Allowed(e: Effect, r: Reference, permitted: set<Permission>) {
    r.owner == e.owner || Permission(e.owner, r.owner, r.role) in permitted
  }

  predicate AllAllowed(e: Effect, rs: set<Reference>, permitted: set<Permission>) {
    forall r :: r in rs ==> Allowed(e, r, permitted)
  }

  predicate Affects(e: Effect, path: Text) { if e.subtree then IsWithin(path, e.path) else path == e.path }

  /** Every effect against every referenced path. */
  predicate Unharmed(references: References, effects: seq<Effect>, permitted: set<Permission>) {
    forall k :: 0 <= k < |effects| ==> EffectOk(references, effects[k], permitted)
  }

  predicate EffectOk(references: References, e: Effect, permitted: set<Permission>) {
    forall path :: path in references && Affects(e, path) ==> AllAllowed(e, references[path], permitted)
  }

  /** An effect reaches its own path and, if it covers a subtree, every path whose names begin with
      those of its own. */
  predicate Reaches(e: Effect, path: Text) { path == e.path || (e.subtree && Names(e.path) <= Names(path)) }

  /** No effect reaches a path that another owner references in a role it has no permission for. */
  lemma UnharmedMeans(references: References, effects: seq<Effect>, permitted: set<Permission>)
    requires forall path :: path in references ==> Canonical(path)
    requires forall e :: e in effects ==> Canonical(e.path)
    ensures Unharmed(references, effects, permitted) <==>
      forall e, path, r :: e in effects && path in references && r in references[path] && Reaches(e, path) ==>
        r.owner == e.owner || Permission(e.owner, r.owner, r.role) in permitted
  {
    forall e, path | e in effects && path in references ensures Affects(e, path) <==> Reaches(e, path) {
      WithinMeans(path, e.path);
    }
    hide Affects;
    hide Reaches;
    if Unharmed(references, effects, permitted) {
      forall e, path, r | e in effects && path in references && r in references[path] && Reaches(e, path)
        ensures r.owner == e.owner || Permission(e.owner, r.owner, r.role) in permitted
      {
        var k :| 0 <= k < |effects| && effects[k] == e;
        assert EffectOk(references, effects[k], permitted);
        assert AllAllowed(e, references[path], permitted);
      }
    }
  }

  // ----- Texts that share a prefix are neighbours -----

  lemma {:induction false} PrefixNotLess(prefix: Text, path: Text)
    requires prefix <= path
    ensures !Less(path, prefix)
  {
    if prefix != [] { PrefixNotLess(prefix[1..], path[1..]); }
  }

  /** Past the prefix in order, a text without it is greater than every text with it. */
  lemma {:induction false} PrefixContiguous(prefix: Text, a: Text, b: Text)
    requires !Less(a, prefix) && Less(a, b) && prefix <= b
    ensures prefix <= a
  {
    if prefix != [] {
      assert a != [] && prefix[0] == b[0];
      assert a[0] == b[0];
      PrefixContiguous(prefix[1..], a[1..], b[1..]);
      assert a == [a[0]] + a[1..] && prefix == [prefix[0]] + prefix[1..];
    }
  }

  // ----- Sorting and searching the paths -----

  predicate Increasing(paths: seq<Text>) { forall i, j :: 0 <= i < j < |paths| ==> Less(paths[i], paths[j]) }

  ghost predicate Holds(paths: seq<Text>, keys: set<Text>) { forall p :: p in paths <==> p in keys }

  /** The place of a path among increasing ones. */
  method BisectLeft(paths: seq<Text>, x: Text) returns (at: nat)
    requires Increasing(paths)
    ensures at <= |paths|
    ensures forall i :: 0 <= i < at ==> Less(paths[i], x)
    ensures forall i :: at <= i < |paths| ==> !Less(paths[i], x)
  {
    var low, high := 0, |paths|;
    while low < high
      invariant 0 <= low <= high <= |paths|
      invariant forall i :: 0 <= i < low ==> Less(paths[i], x)
      invariant forall i :: high <= i < |paths| ==> !Less(paths[i], x)
    {
      var mid := (low + high) / 2;
      if Less(paths[mid], x) {
        BelowToo(paths, mid, x);
        low := mid + 1;
      } else {
        AboveToo(paths, mid, x);
        high := mid;
      }
    }
    at := low;
  }

  lemma BelowToo(paths: seq<Text>, mid: nat, x: Text)
    requires Increasing(paths) && mid < |paths| && Less(paths[mid], x)
    ensures forall i :: 0 <= i <= mid ==> Less(paths[i], x)
  {
    forall i | 0 <= i < mid ensures Less(paths[i], x) { LessTransitive(paths[i], paths[mid], x); }
  }

  lemma AboveToo(paths: seq<Text>, mid: nat, x: Text)
    requires Increasing(paths) && mid < |paths| && !Less(paths[mid], x)
    ensures forall i :: mid <= i < |paths| ==> !Less(paths[i], x)
  {
    forall i | mid <= i < |paths| ensures !Less(paths[i], x) {
      if mid < i && Less(paths[i], x) { LessTransitive(paths[mid], paths[i], x); }
    }
  }

  method SortPaths(keys: set<Text>) returns (paths: seq<Text>)
    ensures Increasing(paths) && Holds(paths, keys)
  {
    hide Less;
    paths := [];
    var rest := keys;
    while rest != {}
      invariant rest <= keys && Increasing(paths) && Holds(paths, keys - rest)
      decreases |rest|
    {
      var p :| p in rest;
      var at := BisectLeft(paths, p);
      InsertSorts(paths, at, p);
      paths := paths[..at] + [p] + paths[at..];
      rest := rest - {p};
    }
  }

  lemma InsertSorts(paths: seq<Text>, at: nat, p: Text)
    requires Increasing(paths) && at <= |paths| && p !in paths
    requires forall i :: 0 <= i < at ==> Less(paths[i], p)
    requires forall i :: at <= i < |paths| ==> !Less(paths[i], p)
    ensures Increasing(paths[..at] + [p] + paths[at..])
    ensures forall q :: q in paths[..at] + [p] + paths[at..] <==> q in paths || q == p
  {
    hide Less;
    forall i | at <= i < |paths| ensures Less(p, paths[i]) {
      LessTotal(paths[i], p);
      assert paths[i] in paths;
    }
    forall q ensures q in paths[..at] + [p] + paths[at..] <==> q in paths || q == p {
      assert paths == paths[..at] + paths[at..];
    }
  }

  // ----- The check -----

  /** Any reference at this path the effect's owner may not touch. */
  method Blocked(e: Effect, rs: set<Reference>, permitted: set<Permission>) returns (blocked: bool)
    ensures blocked <==> !AllAllowed(e, rs, permitted)
  {
    var rest := rs;
    while rest != {}
      invariant rest <= rs && forall r :: r in rs && r !in rest ==> Allowed(e, r, permitted)
      decreases |rest|
    {
      var r :| r in rest;
      if r.owner != e.owner && Permission(e.owner, r.owner, r.role) !in permitted { return true; }
      rest := rest - {r};
    }
    blocked := false;
  }

  /** The referenced paths below the effect's path, read off one stretch of the sorted list. */
  method SubtreeOk(references: References, paths: seq<Text>, e: Effect, permitted: set<Permission>) returns (ok: bool)
    requires Increasing(paths) && Holds(paths, references.Keys)
    ensures ok <==> forall p :: p in references && Prefix(e.path) <= p ==> AllAllowed(e, references[p], permitted)
  {
    hide Less;
    hide AllAllowed;
    var prefix := Prefix(e.path);
    var start := BisectLeft(paths, prefix);
    var index := start;
    while index < |paths| && prefix <= paths[index]
      invariant start <= index <= |paths|
      invariant forall i :: start <= i < index ==>
        paths[i] in references && AllAllowed(e, references[paths[i]], permitted)
      decreases |paths| - index
    {
      assert paths[index] in paths;
      var blocked := Blocked(e, references[paths[index]], permitted);
      if blocked { return false; }
      index := index + 1;
    }
    StretchComplete(paths, prefix, start, index);
    forall p | p in references && prefix <= p ensures AllAllowed(e, references[p], permitted) {
      assert p in paths;
      var i :| 0 <= i < |paths| && paths[i] == p;
    }
    ok := true;
  }

  /** Nothing outside the stretch has the prefix. */
  lemma StretchComplete(paths: seq<Text>, prefix: Text, start: nat, index: nat)
    requires Increasing(paths) && start <= index <= |paths|
    requires forall i :: 0 <= i < start ==> Less(paths[i], prefix)
    requires forall i :: start <= i < |paths| ==> !Less(paths[i], prefix)
    requires index < |paths| ==> !(prefix <= paths[index])
    ensures forall i :: 0 <= i < |paths| && prefix <= paths[i] ==> start <= i < index
  {
    hide Less;
    forall i | 0 <= i < |paths| && prefix <= paths[i] ensures start <= i < index {
      PrefixNotLess(prefix, paths[i]);
      if index < i { PrefixContiguous(prefix, paths[index], paths[i]); }
    }
  }

  /** The search over sorted paths accepts exactly when no effect touches a path, or below a
      subtree effect any path, that another owner references without permission. */
  method ValidateRetained(references: References, effects: seq<Effect>, permitted: set<Permission>) returns (ok: bool)
    ensures ok <==> Unharmed(references, effects, permitted)
  {
    hide AllAllowed;
    hide Increasing;
    hide Holds;
    var paths := SortPaths(references.Keys);
    for k := 0 to |effects|
      invariant forall j :: 0 <= j < k ==> EffectOk(references, effects[j], permitted)
    {
      var e := effects[k];
      if e.path in references {
        var blocked := Blocked(e, references[e.path], permitted);
        if blocked {
          assert !EffectOk(references, effects[k], permitted) by { assert Affects(e, e.path); }
          return false;
        }
      }
      if e.subtree {
        var below := SubtreeOk(references, paths, e, permitted);
        if !below {
          assert !EffectOk(references, effects[k], permitted);
          return false;
        }
      }
      assert EffectOk(references, effects[k], permitted);
    }
    ok := true;
  }
}

/** Reading back a canonical text yields the value it was made from. */
module JsonRoundTrip {
  import opened Text
  import opened JsonValue
  import opened JsonDecode
  import opened JsonGrammar
  import opened JsonReading
  import opened JsonShortest
  import JsonFacts

  /** Within the size functions' bounds every text is legible. */
  lemma {:induction false} BoundsLegible(v: Value, depth: nat)
    requires InBounds(v, depth)
    ensures Legible(v)
    decreases v
  {
    match v
    case Str(s) => CleanLegible(s);
    case List(items) =>
      forall i | 0 <= i < |items| ensures Legible(items[i]) { BoundsLegible(items[i], depth + 1); }
    case Dict(members) =>
      forall i | 0 <= i < |members| ensures LegibleText(members[i].key) && Legible(members[i].val) {
        CleanLegible(members[i].key);
        BoundsLegible(members[i].val, depth + 1);
      }
    case _ =>
  }

  lemma CleanLegible(s: Text)
    requires Clean(s)
    ensures LegibleText(s)
  {
    forall i | 0 <= i < |s| ensures !(0xD800 <= s[i] <= 0xDFFF) { assert s[i] in s; }
  }

  /** Main round trip: a canonical text followed by anything that may follow a value is
      read as exactly that value, leaving exactly what followed. */
  lemma EmitRoundTrip(v: Value, rest: Text)
    requires WellFormed(v) && Legible(v) && Ends(rest)
    ensures DecodeValue(Emit(v) + rest) == Some(Parsed(v, rest))
  {
    EmitWritten(v);
    PlainIsAny(Emit(v), v);
    ValueRead(Emit(v), v, rest);
  }

  // ----- The canonical text of any value -----

  lemma {:induction false} NormInBounds(v: Value, depth: nat)
    requires InBounds(v, depth)
    ensures InBounds(Norm(v), depth)
    decreases v
  {
    match v
    case List(items) =>
      forall i | 0 <= i < |items|
        ensures InBounds(NormItems(items)[i], depth + 1)
      {
        NormInBounds(items[i], depth + 1);
      }
    case Dict(members) =>
      var normed := NormMembers(members);
      forall i | 0 <= i < |normed|
        ensures depth < MAX_DEPTH && Clean(Sort(normed)[i].key) && InBounds(Sort(normed)[i].val, depth + 1)
      {
        assert Sort(normed)[i] in normed;
        var k :| 0 <= k < |normed| && normed[k] == Sort(normed)[i];
        NormInBounds(members[k].val, depth + 1);
      }
    case _ =>
  }

  predicate MemberInDomain(m: Entry<Value>, depth: nat) {
    Clean(m.key) && |m.key| <= MAX_KEY && InDomain(m.val, depth + 1)
  }

  /** Sorting the members neither leaves the scanner's domain nor enters it. */
  lemma {:induction false} NormInDomain(v: Value, depth: nat)
    ensures InDomain(v, depth) <==> InDomain(Norm(v), depth)
    decreases v
  {
    match v
    case List(items) =>
      forall i | 0 <= i < |items| ensures InDomain(items[i], depth + 1) <==> InDomain(NormItems(items)[i], depth + 1) {
        NormInDomain(items[i], depth + 1);
      }
    case Dict(members) =>
      var normed := NormMembers(members);
      forall i | 0 <= i < |members| ensures MemberInDomain(members[i], depth) <==> MemberInDomain(normed[i], depth) {
        NormInDomain(members[i].val, depth + 1);
      }
      MembersInDomain(members, depth);
      MembersInDomain(normed, depth);
      MembersInDomain(Sort(normed), depth);
      SameMembers(members, normed, depth);
    case _ =>
  }

  lemma SameMembers(a: seq<Entry<Value>>, b: seq<Entry<Value>>, depth: nat)
    requires |a| == |b| && forall i :: 0 <= i < |a| ==> (MemberInDomain(a[i], depth) <==> MemberInDomain(b[i], depth))
    ensures (forall m :: m in a ==> MemberInDomain(m, depth)) <==> (forall m :: m in b ==> MemberInDomain(m, depth))
  {
    hide MemberInDomain;
    if forall m :: m in a ==> MemberInDomain(m, depth) {
      forall i | 0 <= i < |a| ensures MemberInDomain(b[i], depth) { assert a[i] in a; }
    }
    if forall m :: m in b ==> MemberInDomain(m, depth) {
      forall i | 0 <= i < |a| ensures MemberInDomain(a[i], depth) { assert b[i] in b; }
    }
  }

  lemma MembersInDomain(members: seq<Entry<Value>>, depth: nat)
    ensures InDomain(Dict(members), depth) <==>
      depth < MAX_DEPTH && |members| <= MAX_RECORDS && forall m :: m in members ==> MemberInDomain(m, depth)
  {
    if forall m :: m in members ==> MemberInDomain(m, depth) {
      forall i | 0 <= i < |members| ensures MemberInDomain(members[i], depth) { assert members[i] in members; }
    }
    assert InDomain(Dict(members), depth) ==> forall i :: 0 <= i < |members| ==> MemberInDomain(members[i], depth);
  }

  lemma {:induction false} DomainInBounds(v: Value, depth: nat)
    requires InDomain(v, depth)
    ensures InBounds(v, depth)
    decreases v
  {
    match v
    case List(items) =>
      forall i | 0 <= i < |items| ensures InBounds(items[i], depth + 1) { DomainInBounds(items[i], depth + 1); }
    case Dict(members) =>
      forall i | 0 <= i < |members|
        ensures InBounds(members[i].val, depth + 1)
      {
        DomainInBounds(members[i].val, depth + 1);
      }
    case _ =>
  }

  /** The canonical text reads back as the value, its mappings in key order. */
  lemma CanonicalRoundTrip(v: Value)
    requires WellFormed(v) && InBounds(v, 0)
    ensures Decode(Encode(v)) == Some(Norm(v)) && Same(v, Norm(v))
  {
    JsonFacts.NormWellFormed(v);
    NormInBounds(v, 0);
    BoundsLegible(Norm(v), 0);
    EmitRoundTrip(Norm(v), []);
    assert Encode(v) + [] == Encode(v);
    NormTwice(v);
    JsonFacts.SameIffNorm(v, Norm(v));
  }

  lemma {:induction false} NormTwice(v: Value)
    requires WellFormed(v)
    ensures Norm(Norm(v)) == Norm(v)
    decreases v
  {
    match v
    case List(items) =>
      forall i | 0 <= i < |items| ensures NormItems(NormItems(items))[i] == NormItems(items)[i] { NormTwice(items[i]); }
      assert NormItems(NormItems(items)) == NormItems(items);
    case Dict(members) =>
      var sorted := Sort(NormMembers(members));
      forall i | 0 <= i < |sorted| ensures NormMembers(sorted)[i] == sorted[i] {
        assert sorted[i] in NormMembers(members);
        var k :| 0 <= k < |members| && NormMembers(members)[k] == sorted[i];
        NormTwice(members[k].val);
      }
      assert NormMembers(sorted) == sorted;
      SortSorts(NormMembers(members));
      SortedDistinct(sorted);
      SortSorts(sorted);
      SortedUnique(Sort(sorted), sorted);
    case _ =>
  }

  /** The keys of every mapping rise in code point order. */
  predicate KeysRise(v: Value)
    decreases v
  {
    match v
    case List(items) => forall i :: 0 <= i < |items| ==> KeysRise(items[i])
    case Dict(members) => Sorted(members) && forall i :: 0 <= i < |members| ==> KeysRise(members[i].val)
    case _ => true
  }

  lemma {:induction false} NormRises(v: Value)
    requires WellFormed(v)
    ensures KeysRise(Norm(v))
    decreases v
  {
    match v
    case List(items) =>
      forall i | 0 <= i < |items| ensures KeysRise(NormItems(items)[i]) { NormRises(items[i]); }
    case Dict(members) =>
      var normed := NormMembers(members);
      SortSorts(normed);
      forall i | 0 <= i < |normed| ensures KeysRise(Sort(normed)[i].val) {
        assert Sort(normed)[i] in normed;
        var k :| 0 <= k < |normed| && normed[k] == Sort(normed)[i];
        NormRises(members[k].val);
      }
    case _ =>
  }

  lemma {:induction false} RisingIsNorm(v: Value)
    requires KeysRise(v)
    ensures Norm(v) == v && WellFormed(v)
    decreases v
  {
    match v
    case List(items) =>
      forall i | 0 <= i < |items| ensures NormItems(items)[i] == items[i] && WellFormed(items[i]) {
        RisingIsNorm(items[i]);
      }
      assert NormItems(items) == items;
    case Dict(members) =>
      forall i | 0 <= i < |members| ensures NormMembers(members)[i] == members[i] && WellFormed(members[i].val) {
        RisingIsNorm(members[i].val);
      }
      assert NormMembers(members) == members;
      SortedDistinct(members);
      SortSorts(members);
      SortedUnique(Sort(members), members);
    case _ =>
  }

  /** A plain writing that no plain writing of the same value is shorter than. */
  ghost predicate Shortest(t: Text, w: Value) {
    ValueWritten(t, w, Plain) && forall u :: ValueWritten(u, w, Plain) ==> |t| <= |u|
  }

  /** The canonical text of a value is the shortest text of the plain dialect that writes the same
      value with its keys in order; no other text is both. */
  lemma CanonicalExactly(v: Value, t: Text)
    requires WellFormed(v)
    ensures t == Encode(v) <==> exists w :: Same(v, w) && KeysRise(w) && Shortest(t, w)
  {
    hide Emit;
    hide ValueWritten;
    hide Norm;
    hide Same;
    hide KeysRise;
    NormRises(v);
    JsonFacts.NormWellFormed(v);
    NormTwice(v);
    JsonFacts.SameIffNorm(v, Norm(v));
    forall u ensures ValueWritten(u, Norm(v), Plain) ==> u == Encode(v) || |u| > |Encode(v)| {
      EmitShortest(Norm(v), u);
    }
    EmitShortest(Norm(v), t);
    if w :| Same(v, w) && KeysRise(w) && Shortest(t, w) {
      RisingIsNorm(w);
      JsonFacts.SameIffNorm(v, w);
    }
  }

  /** Two values share a canonical text exactly when they are the same value. */
  lemma CanonicalTextDecides(v: Value, w: Value)
    requires WellFormed(v) && WellFormed(w) && InBounds(v, 0) && InBounds(w, 0)
    ensures Encode(v) == Encode(w) <==> Same(v, w)
  {
    CanonicalRoundTrip(v);
    CanonicalRoundTrip(w);
    JsonFacts.SameIffNorm(v, w);
  }
}

/** What an admitted recovery plan says: the text that is signed reads back, under the names the
    program's readers use, as what was submitted, and the reservation is that of the plan with its
    digest in place. */
module PlanContents {
  import opened Text
  import opened JsonValue
  import opened JsonDecode
  import opened RecoveryPlan
  import JsonFacts
  import JsonReading
  import JsonRoundTrip
  import JsonSums
  import PlanScanner

  predicate Says(v: Value, key: string, val: Value) { v.Dict? && Entry(Ascii(key), val) in v.members }

  /** The text under the key is a document that decodes to this value. */
  ghost predicate Embeds(v: Value, key: string, document: Value) {
    exists t :: Says(v, key, Str(t)) && Decode(t).Some? && Same(document, Decode(t).value)
  }

  // ----- The selection document -----

  /** Exactly four members, in any order. */
  predicate Selects(selection: Value, inventorySha: Text, version: int, decisions: Value, epoch: Value) {
    && selection.Dict? && |selection.members| == 4
    && Says(selection, "version", Int(version)) && Says(selection, "inventory_sha256", Str(inventorySha))
    && Says(selection, "decisions", decisions) && Says(selection, "epoch_bindings", epoch)
  }

  ghost function Keys(members: seq<Entry<Value>>): set<Text> { set i | 0 <= i < |members| :: members[i].key }

  lemma KeysStep(init: seq<Entry<Value>>, last: Entry<Value>)
    ensures Keys(init + [last]) == Keys(init) + {last.key}
    ensures DistinctKeys(init + [last]) ==> DistinctKeys(init) && last.key !in Keys(init)
  {
    var members := init + [last];
    forall k | k in Keys(init) ensures k in Keys(members) {
      var i :| 0 <= i < |init| && init[i].key == k;
      assert members[i].key == k;
    }
    assert members[|init|] == last;
    assert forall i :: 0 <= i < |init| ==> members[i] == init[i];
  }

  lemma {:induction false} KeyCount(members: seq<Entry<Value>>)
    ensures PlanScanner.Record(map[], members).Keys == Keys(members)
    ensures DistinctKeys(members) ==> |Keys(members)| == |members|
  {
    hide PlanScanner.MetricsOf;
    hide DistinctKeys;
    if members != [] {
      var last, init := members[|members| - 1], members[..|members| - 1];
      assert members == init + [last];
      KeyCount(init);
      KeysStep(init, last);
    } else {
      assert Keys(members) == {};
    }
  }

  lemma {:induction false} LookupUnique(members: seq<Entry<Value>>, e: Entry<Value>)
    requires DistinctKeys(members) && e in members
    ensures Lookup(members, e.key) == Some(e.val)
  {
    var init := members[..|members| - 1];
    var i :| 0 <= i < |members| && members[i] == e;
    if i < |members| - 1 {
      assert init[i] == e;
      LookupUnique(init, e);
    }
  }

  lemma FourNames()
    ensures VERSION == Ascii("version") && INVENTORY_SHA256 == Ascii("inventory_sha256")
    ensures DECISIONS == Ascii("decisions") && EPOCH_BINDINGS == Ascii("epoch_bindings")
    ensures |{Ascii("version"), Ascii("inventory_sha256"), Ascii("decisions"), Ascii("epoch_bindings")}| == 4
  {
    var a, b, c, d := Ascii("version"), Ascii("inventory_sha256"), Ascii("decisions"), Ascii("epoch_bindings");
    assert |a| == 7 && |b| == 16 && |c| == 9 && |d| == 14;
    assert |{a, b, c, d}| == 4;
  }

  lemma {:induction false} EqualSets<T>(a: set<T>, b: set<T>)
    requires a <= b && |a| == |b|
    ensures a == b
  {
    if a != b {
      var x :| x in b && x !in a;
      assert a <= b - {x};
      SmallerSet(a, b - {x});
    }
  }

  lemma {:induction false} SmallerSet<T>(a: set<T>, b: set<T>)
    requires a <= b
    ensures |a| <= |b|
    decreases |a|
  {
    if x :| x in a { SmallerSet(a - {x}, b - {x}); }
  }

  lemma MemberSays(members: seq<Entry<Value>>, key: string)
    requires Lookup(members, Ascii(key)).Some?
    ensures Says(Dict(members), key, Lookup(members, Ascii(key)).value)
  {
    LookupMember(members, Ascii(key));
  }

  /** A selection is accepted exactly when it has the four members, its version is 1 or 2, and it
      names the digest of the inventory; and then its parts are what these members hold. */
  lemma SelectionExactly(selection: Value, inventorySha: Text)
    requires WellFormed(selection)
    ensures SelectionOk(selection, inventorySha) <==>
      exists version, decisions, epoch ::
        1 <= version <= 2 && Selects(selection, inventorySha, version, decisions, epoch)
    ensures forall version, decisions, epoch :: Selects(selection, inventorySha, version, decisions, epoch) ==>
      Part(selection, DECISIONS) == decisions && Part(selection, EPOCH_BINDINGS) == epoch
      && VersionOf(selection) == version
  {
    hide Ascii;
    hide Lookup;
    hide PlanScanner.Record;
    hide WellFormed;
    FourNames();
    if SelectionOk(selection, inventorySha) { AcceptedSelects(selection, inventorySha); }
    forall version, decisions, epoch | Selects(selection, inventorySha, version, decisions, epoch)
      ensures Part(selection, DECISIONS) == decisions && Part(selection, EPOCH_BINDINGS) == epoch
        && VersionOf(selection) == version
      ensures 1 <= version <= 2 ==> SelectionOk(selection, inventorySha)
    {
      SelectedAccepts(selection, inventorySha, version, decisions, epoch);
    }
  }

  lemma AcceptedSelects(selection: Value, inventorySha: Text)
    requires WellFormed(selection) && SelectionOk(selection, inventorySha)
    ensures 1 <= VersionOf(selection) <= 2
      && Selects(selection, inventorySha, VersionOf(selection), Part(selection, DECISIONS),
                 Part(selection, EPOCH_BINDINGS))
  {
    hide Ascii;
    hide Lookup;
    hide PlanScanner.Record;
    FourNames();
    var members := selection.members;
    KeyCount(members);
    var keys := PlanScanner.Record(map[], members).Keys;
    assert VERSION in keys && INVENTORY_SHA256 in keys && DECISIONS in keys && EPOCH_BINDINGS in keys;
    RecordLookup(members, DECISIONS);
    RecordLookup(members, EPOCH_BINDINGS);
    MemberSays(members, "version");
    MemberSays(members, "inventory_sha256");
    MemberSays(members, "decisions");
    MemberSays(members, "epoch_bindings");
  }

  lemma SelectedAccepts(selection: Value, inventorySha: Text, version: int, decisions: Value, epoch: Value)
    requires WellFormed(selection) && Selects(selection, inventorySha, version, decisions, epoch)
    ensures Part(selection, DECISIONS) == decisions && Part(selection, EPOCH_BINDINGS) == epoch
      && VersionOf(selection) == version
    ensures 1 <= version <= 2 ==> SelectionOk(selection, inventorySha)
  {
    hide Ascii;
    hide Lookup;
    hide PlanScanner.Record;
    FourNames();
    var members := selection.members;
    KeyCount(members);
    LookupUnique(members, Entry(VERSION, Int(version)));
    LookupUnique(members, Entry(INVENTORY_SHA256, Str(inventorySha)));
    LookupUnique(members, Entry(DECISIONS, decisions));
    LookupUnique(members, Entry(EPOCH_BINDINGS, epoch));
    var four := {VERSION, INVENTORY_SHA256, DECISIONS, EPOCH_BINDINGS};
    RecordLookup(members, VERSION);
    RecordLookup(members, INVENTORY_SHA256);
    RecordLookup(members, DECISIONS);
    RecordLookup(members, EPOCH_BINDINGS);
    EqualSets(four, Keys(members));
  }

  // ----- The signed text -----

  lemma KeysDiffer(members: seq<Entry<Value>>)
    requires |members| == 6
    requires members[0].key == VERSION && members[1].key == Ascii("inventory") && members[2].key == DECISIONS
    requires members[3].key == Ascii("declaration_json") && members[4].key == Ascii("backup_receipt_json")
    requires members[5].key == Ascii("epoch_bindings_json")
    ensures DistinctKeys(members)
  {
    assert |members[0].key| == 7 && |members[1].key| == 9 && |members[2].key| == 9 && |members[3].key| == 16;
    assert |members[4].key| == 19 && |members[5].key| == 19;
    assert members[1].key[0] == 105 && members[2].key[0] == 100;
    assert members[4].key[0] == 98 && members[5].key[0] == 101;
  }

  lemma UnsignedWellFormed(version: int, inventory: Value, decisions: Value, declaration: Text, receipt: Text,
          epoch: Text)
    requires WellFormed(inventory) && WellFormed(decisions)
    ensures WellFormed(Unsigned(PlanValue(version, inventory, decisions, declaration, receipt, epoch)))
  {
    hide Ascii;
    KeysDiffer(Unsigned(PlanValue(version, inventory, decisions, declaration, receipt, epoch)).members);
  }

  /** A member of a value is a member of what its canonical text decodes to, in sorted form. */
  lemma SaysSorted(v: Value, key: string, val: Value)
    requires Says(v, key, val)
    ensures Says(Norm(v), key, Norm(val))
  {
    var i :| 0 <= i < |v.members| && v.members[i] == Entry(Ascii(key), val);
    assert NormMembers(v.members)[i] == Entry(Ascii(key), Norm(val));
  }

  lemma EmbedsSorted(v: Value, key: string, document: Value)
    requires Says(v, key, Str(Encode(document))) && WellFormed(document) && InBounds(document, 0)
    ensures Embeds(Norm(v), key, document)
  {
    hide Encode;
    SaysSorted(v, key, Str(Encode(document)));
    JsonRoundTrip.CanonicalRoundTrip(document);
  }

  lemma PlanSays(version: int, inventory: Value, decisions: Value, declaration: Text, receipt: Text, epoch: Text)
    ensures var v := Unsigned(PlanValue(version, inventory, decisions, declaration, receipt, epoch));
      && Says(v, "version", Int(version)) && Says(v, "inventory", inventory) && Says(v, "decisions", decisions)
      && Says(v, "declaration_json", Str(declaration)) && Says(v, "backup_receipt_json", Str(receipt))
      && Says(v, "epoch_bindings_json", Str(epoch))
  {
    hide Ascii;
    FourNames();
    var v := Unsigned(PlanValue(version, inventory, decisions, declaration, receipt, epoch));
    assert v.members[0] == Entry(Ascii("version"), Int(version)) && v.members[1] == Entry(Ascii("inventory"), inventory)
      && v.members[2] == Entry(Ascii("decisions"), decisions)
      && v.members[3] == Entry(Ascii("declaration_json"), Str(declaration))
      && v.members[4] == Entry(Ascii("backup_receipt_json"), Str(receipt))
      && v.members[5] == Entry(Ascii("epoch_bindings_json"), Str(epoch));
  }

  ghost predicate ReadsBack(read: Value, inventory: Value, version: int, decisions: Value, epoch: Value,
                            declaration: Value, receipt: Value)
  {
    && read.Dict? && |read.members| == 6 && DistinctKeys(read.members)
    && Says(read, "version", Int(version)) && Says(read, "inventory", Norm(inventory))
    && Says(read, "decisions", Norm(decisions))
    && Embeds(read, "declaration_json", declaration) && Embeds(read, "backup_receipt_json", receipt)
    && Embeds(read, "epoch_bindings_json", epoch)
  }

  lemma UnsignedReadsBack(version: int, inventory: Value, decisions: Value, epoch: Value, declaration: Value,
          receipt: Value)
    requires WellFormed(inventory) && WellFormed(decisions) && WellFormed(declaration) && WellFormed(receipt)
      && WellFormed(epoch)
    requires InBounds(inventory, 1) && InBounds(decisions, 1) && InBounds(declaration, 0) && InBounds(receipt, 0)
      && InBounds(epoch, 0)
    ensures
      var v := Unsigned(PlanValue(version, inventory, decisions, Encode(declaration), Encode(receipt), Encode(epoch)));
      Decode(Encode(v)).Some? && ReadsBack(Decode(Encode(v)).value, inventory, version, decisions, epoch, declaration,
                                           receipt)
  {
    hide Encode;
    hide Decode;
    hide Norm;
    hide InBounds;
    hide WellFormed;
    hide Says;
    hide Embeds;
    hide PlanValue;
    hide Unsigned;
    var v := Unsigned(PlanValue(version, inventory, decisions, Encode(declaration), Encode(receipt), Encode(epoch)));
    JsonFacts.EmbeddedLength(declaration);
    JsonFacts.EmbeddedLength(receipt);
    JsonFacts.EmbeddedLength(epoch);
    PlanInBounds(version, inventory, decisions, Encode(declaration), Encode(receipt), Encode(epoch));
    UnsignedWellFormed(version, inventory, decisions, Encode(declaration), Encode(receipt), Encode(epoch));
    JsonRoundTrip.CanonicalRoundTrip(v);
    PlanSays(version, inventory, decisions, Encode(declaration), Encode(receipt), Encode(epoch));
    SaysSorted(v, "version", Int(version));
    SaysSorted(v, "inventory", inventory);
    SaysSorted(v, "decisions", decisions);
    EmbedsSorted(v, "declaration_json", declaration);
    EmbedsSorted(v, "backup_receipt_json", receipt);
    EmbedsSorted(v, "epoch_bindings_json", epoch);
    SixMembers(version, inventory, decisions, Encode(declaration), Encode(receipt), Encode(epoch));
  }

  lemma SixMembers(version: int, inventory: Value, decisions: Value, declaration: Text, receipt: Text, epoch: Text)
    requires WellFormed(inventory) && WellFormed(decisions)
    ensures
      var v := Norm(Unsigned(PlanValue(version, inventory, decisions, declaration, receipt, epoch)));
      v.Dict? && |v.members| == 6 && DistinctKeys(v.members) && Norm(Int(version)) == Int(version)
  {
    hide Ascii;
    UnsignedWellFormed(version, inventory, decisions, declaration, receipt, epoch);
    JsonFacts.NormWellFormed(Unsigned(PlanValue(version, inventory, decisions, declaration, receipt, epoch)));
  }

  /** The digest of an admitted plan is taken over a text that reads back as the submission: under
      the six names, the version, the inventory and the decisions, and as texts the declaration,
      the receipt and the epoch bindings, each decoding to the document it was submitted as. */
  lemma SignedReadsBack(s: Submission)
    requires Admissible(s) && WellFormed(s.inventory)
    ensures
      var read, selection := Decode(Encode(Unsigned(Submitted(s)))), Decode(s.decisionsJson).value;
      exists version, decisions, epoch ::
        && Selects(selection, s.inventorySha, version, decisions, epoch) && read.Some?
        && ReadsBack(read.value, s.inventory, version, decisions, epoch, Decode(s.declarationJson).value,
                     Decode(s.receiptJson).value)
  {
    hide Encode;
    hide Decode;
    hide InDomain;
    hide InBounds;
    hide WellFormed;
    hide PlanValue;
    hide Unsigned;
    hide Size;
    hide PlanScanner.Record;
    hide Lookup;
    hide Selects;
    hide ReadsBack;
    hide ProjectionInBounds;
    hide ProjectionTotal;
    JsonReading.DecodedWellFormed(s.decisionsJson);
    JsonReading.DecodedWellFormed(s.declarationJson);
    JsonReading.DecodedWellFormed(s.receiptJson);
    var selection, declaration, receipt :=
      Decode(s.decisionsJson).value, Decode(s.declarationJson).value, Decode(s.receiptJson).value;
    JsonRoundTrip.DomainInBounds(declaration, 0);
    JsonRoundTrip.DomainInBounds(receipt, 0);
    AcceptedSelects(selection, s.inventorySha);
    SelectionRecorded(selection);
    var decisions, epoch := Part(selection, DECISIONS), Part(selection, EPOCH_BINDINGS);
    PartsWellFormed(selection, DECISIONS);
    PartsWellFormed(selection, EPOCH_BINDINGS);
    UnsignedReadsBack(VersionOf(selection), s.inventory, decisions, epoch, declaration, receipt);
  }

  lemma PartsWellFormed(selection: Value, key: Text)
    requires WellFormed(selection)
    ensures WellFormed(Part(selection, key))
  {
    if selection.Dict? { LookupMember(selection.members, key); }
  }

  // ----- The finished plan -----

  /** A hexadecimal digest of 256 bits. */
  predicate HexDigest(d: Text) {
    |d| == 64 && forall i :: 0 <= i < 64 ==> '0' as int <= d[i] <= '9' as int || 'a' as int <= d[i] <= 'f' as int
  }

  lemma {:induction false} PlainSize(t: Text)
    requires forall i :: 0 <= i < |t| ==> '0' as int <= t[i] <= '9' as int || 'a' as int <= t[i] <= 'f' as int
    ensures TextSize(t) == |t| + 2
  {
    if t != [] { PlainSize(t[..|t| - 1]); }
  }

  /** The plan is checked with zeros in the place of its digest; with the digest it is as long. */
  lemma FinishedSize(version: int, inventory: Value, decisions: Value, declaration: Text, receipt: Text, epoch: Text,
          digest: Text)
    requires HexDigest(digest)
    ensures
      var plan := PlanValue(version, inventory, decisions, declaration, receipt, epoch);
      |Encode(Dict(Unsigned(plan).members + [Entry(Ascii("sha256"), Str(digest))]))| == Size(plan)
  {
    hide Size;
    hide TextSize;
    hide Ascii;
    var plan := PlanValue(version, inventory, decisions, declaration, receipt, epoch);
    var finished := Dict(Unsigned(plan).members + [Entry(Ascii("sha256"), Str(digest))]);
    JsonFacts.EncodeLength(finished);
    PlainSize(digest);
    PlainSize(ZEROS);
    FlatSizes(plan.members, ZEROS);
    FlatSizes(finished.members, digest);
    SevenMembers(plan.members);
    SevenMembers(finished.members);
  }

  function Records(outputs: seq<Projection>): seq<Value> {
    if outputs == [] then [] else Records(outputs[..|outputs| - 1]) + [outputs[|outputs| - 1].record]
  }

  function Suffixes(outputs: seq<Projection>): nat {
    if outputs == [] then 0 else Suffixes(outputs[..|outputs| - 1]) + outputs[|outputs| - 1].suffix
  }

  /** What is charged for the projected records is the canonical text of the list of them, and the
      length of the suffixes their paths will have; nothing when there are none. */
  lemma ProjectionIsList(outputs: seq<Projection>)
    ensures ProjectionTotal(outputs) ==
      if outputs == [] then 0 else |Encode(List(Records(outputs)))| + Suffixes(outputs)
  {
    if outputs != [] {
      JsonFacts.EncodeLength(List(Records(outputs)));
      RecordSizes(outputs);
    }
  }

  lemma {:induction false} RecordSizes(outputs: seq<Projection>)
    ensures |Records(outputs)| == |outputs|
    ensures SizeItems(Records(outputs)) + Suffixes(outputs) == ProjectionSum(outputs)
  {
    if outputs != [] {
      var init := outputs[..|outputs| - 1];
      RecordSizes(init);
      JsonSums.ItemAppend(Records(init), outputs[|outputs| - 1].record);
    }
  }
}

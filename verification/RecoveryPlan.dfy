/** Building a recovery plan: three untrusted documents are scanned, and the exact size
    of the finished plan is reserved, before any of them is decoded. */
module RecoveryPlan {
  import opened Text
  import opened JsonValue
  import opened JsonDecode
  import opened PlanScanner
  import JsonFacts
  import JsonLoad
  import JsonRoundTrip
  import JsonSums
  import WireSize

  function Repeat(c: Code, n: nat): (t: Text)
    ensures |t| == n && forall i :: 0 <= i < n ==> t[i] == c
  {
    if n == 0 then [] else [c] + Repeat(c, n - 1)
  }

  /** The placeholder for a digest: sixty-four zeros. */
  const ZEROS: Text := Repeat(48, 64)

  const VERSION: Text := Ascii("version")
  const INVENTORY_SHA256: Text := Ascii("inventory_sha256")
  const DECISIONS: Text := Ascii("decisions")
  const EPOCH_BINDINGS: Text := Ascii("epoch_bindings")

  /** A record charged for a rolled-back output, and the length of the path suffix that
      is charged without building the path. */
  datatype Projection = Projection(record: Value, suffix: nat)

  datatype RecoveryPlan<H> = RecoveryPlan(
    version: int, inventory: Value, decisions: Value, declaration: Text, receipt: Text, epoch: Text, sha256: H)

  /** The plan as a JSON value. */
  function PlanValue(version: int, inventory: Value, decisions: Value, declaration: Text, receipt: Text,
          epoch: Text): (v: Value)
    ensures v.Dict? && |v.members| == 7
  {
    Dict([Entry(VERSION, Int(version)), Entry(Ascii("inventory"), inventory), Entry(DECISIONS, decisions),
          Entry(Ascii("declaration_json"), Str(declaration)), Entry(Ascii("backup_receipt_json"), Str(receipt)),
          Entry(Ascii("epoch_bindings_json"), Str(epoch)), Entry(Ascii("sha256"), Str(ZEROS))])
  }

  /** What is hashed: the same value without its digest. */
  function Unsigned(plan: Value): Value
    requires plan.Dict? && |plan.members| == 7
  {
    Dict(plan.members[..6])
  }

  /** The plan with every variable part left empty. */
  function Wrapper(inventory: Value): Value {
    PlanValue(1, inventory, List([]), [], [], [])
  }

  // ----- Exactness of the reservation -----

  lemma SevenMembers(m: seq<Entry<Value>>)
    requires |m| == 7
    ensures SizeMembers(m) ==
      TextSize(m[0].key) + TextSize(m[1].key) + TextSize(m[2].key) + TextSize(m[3].key) + TextSize(m[4].key)
      + TextSize(m[5].key) + TextSize(m[6].key) + 7
      + Size(m[0].val) + Size(m[1].val) + Size(m[2].val) + Size(m[3].val) + Size(m[4].val) + Size(m[5].val)
        + Size(m[6].val)
  {
    hide Size;
    hide TextSize;
    assert SizeMembers(m[6..]) == TextSize(m[6].key) + 1 + Size(m[6].val) + SizeMembers(m[7..]);
    assert SizeMembers(m[4..]) == TextSize(m[4].key) + 1 + Size(m[4].val) + SizeMembers(m[5..]);
    assert SizeMembers(m[2..]) == TextSize(m[2].key) + 1 + Size(m[2].val) + SizeMembers(m[3..]);
    assert m[0..] == m;
  }

  lemma VersionSize(version: int)
    requires version == 1 || version == 2
    ensures Size(Int(version)) == 1
  {
  }

  lemma EmptyParts()
    ensures Size(List([])) == 2 && TextSize([]) == 2
  {
  }

  /** The part of a plan's size that no submission can change. */
  function Frame(): nat {
    2 + 6 + 7 + 1 + TextSize(VERSION) + TextSize(Ascii("inventory")) + TextSize(DECISIONS)
      + TextSize(Ascii("declaration_json"))
    + TextSize(Ascii("backup_receipt_json")) + TextSize(Ascii("epoch_bindings_json")) + TextSize(Ascii("sha256"))
      + TextSize(ZEROS)
  }

  lemma FlatSizes(members: seq<Entry<Value>>, s: Text)
    ensures Size(Dict(members)) == 2 + Separators(|members|) + SizeMembers(members)
    ensures Size(Str(s)) == TextSize(s)
  {
  }

  lemma PlanSize(version: int, inventory: Value, decisions: Value, declaration: Text, receipt: Text, epoch: Text)
    requires version == 1 || version == 2
    ensures Size(PlanValue(version, inventory, decisions, declaration, receipt, epoch)) ==
      Frame() + Size(inventory) + Size(decisions) + TextSize(declaration) + TextSize(receipt) + TextSize(epoch)
  {
    hide TextSize;
    hide Ascii;
    hide Size;
    hide SizeMembers;
    var plan := PlanValue(version, inventory, decisions, declaration, receipt, epoch);
    VersionSize(version);
    FlatSizes(plan.members, declaration);
    FlatSizes(plan.members, receipt);
    FlatSizes(plan.members, epoch);
    FlatSizes(plan.members, ZEROS);
    SevenMembers(plan.members);
  }

  /** The finished plan is exactly as large as the empty wrapper plus what each part was
      charged: a value its size less the two brackets of the empty list, an embedded
      document its size and overhead. */
  lemma ReservationExact(version: int, inventory: Value, decisions: Value, declaration: Value, receipt: Value,
          epoch: Value)
    requires version == 1 || version == 2
    ensures Size(PlanValue(version, inventory, decisions, Encode(declaration), Encode(receipt), Encode(epoch))) ==
      Size(Wrapper(inventory)) + Size(decisions) - 2
      + Size(epoch) + Overhead(epoch) + Size(declaration) + Overhead(declaration) + Size(receipt) + Overhead(receipt)
  {
    JsonFacts.EmbeddedLength(declaration);
    JsonFacts.EmbeddedLength(receipt);
    JsonFacts.EmbeddedLength(epoch);
    PlanSize(version, inventory, decisions, Encode(declaration), Encode(receipt), Encode(epoch));
    PlanSize(1, inventory, List([]), [], [], []);
    EmptyParts();
    hide Encode;
    hide Size;
    hide Overhead;
    hide TextSize;
  }

  lemma CleanAscii(s: string)
    requires forall i :: 0 <= i < |s| ==> 0 < s[i] as int < 128
    ensures Clean(Ascii(s))
  {
  }

  lemma KeysClean()
    ensures Clean(VERSION) && Clean(Ascii("inventory")) && Clean(DECISIONS) && Clean(Ascii("declaration_json"))
    ensures Clean(Ascii("backup_receipt_json")) && Clean(Ascii("epoch_bindings_json")) && Clean(Ascii("sha256"))
    ensures Clean(ZEROS)
  {
    CleanAscii("version");
    CleanAscii("inventory");
    CleanAscii("decisions");
    CleanAscii("declaration_json");
    CleanAscii("backup_receipt_json");
    CleanAscii("epoch_bindings_json");
    CleanAscii("sha256");
    forall c | c in ZEROS ensures c == 48 { }
  }

  lemma PlanInBounds(version: int, inventory: Value, decisions: Value, declaration: Text, receipt: Text, epoch: Text)
    requires InBounds(inventory, 1) && InBounds(decisions, 1)
    requires Clean(declaration) && Clean(receipt) && Clean(epoch)
    ensures InBounds(PlanValue(version, inventory, decisions, declaration, receipt, epoch), 0)
    ensures InBounds(Unsigned(PlanValue(version, inventory, decisions, declaration, receipt, epoch)), 0)
  {
    hide Clean;
    hide Ascii;
    KeysClean();
  }

  lemma UnsignedSmaller(plan: Value)
    requires plan.Dict? && |plan.members| == 7
    ensures Size(Unsigned(plan)) <= Size(plan)
  {
    JsonSums.MembersMonotone(plan.members[..6], plan.members);
  }

  // ----- The scanner's record of a top-level object -----

  function Lookup(members: seq<Entry<Value>>, key: Text): Option<Value> {
    if members == [] then None
    else if members[|members| - 1].key == key then Some(members[|members| - 1].val)
    else Lookup(members[..|members| - 1], key)
  }

  lemma {:induction false} RecordLookup(members: seq<Entry<Value>>, key: Text)
    ensures key in Record(map[], members) <==> Lookup(members, key).Some?
    ensures Lookup(members, key).Some? ==> Record(map[], members)[key] == MetricsOf(Lookup(members, key).value)
  {
    if members != [] { RecordLookup(members[..|members| - 1], key); }
  }

  lemma {:induction false} LookupMember(members: seq<Entry<Value>>, key: Text)
    ensures Lookup(members, key).Some? ==>
      exists i :: 0 <= i < |members| && members[i].key == key && members[i].val == Lookup(members, key).value
  {
    if members != [] && members[|members| - 1].key != key {
      LookupMember(members[..|members| - 1], key);
    }
  }

  lemma LookupInDomain(members: seq<Entry<Value>>, key: Text)
    requires InDomain(Dict(members), 0) && Lookup(members, key).Some?
    ensures InDomain(Lookup(members, key).value, 1)
  {
    LookupMember(members, key);
  }

  // ----- The rollback projection -----

  function ProjectionSum(outputs: seq<Projection>): nat {
    if outputs == [] then 0
    else ProjectionSum(outputs[..|outputs| - 1]) + outputs[|outputs| - 1].suffix + Size(outputs[|outputs| - 1].record)
  }

  /** The size of the list of projected records, or nothing when there are none. */
  function ProjectionTotal(outputs: seq<Projection>): nat {
    if outputs == [] then 0 else 2 + Separators(|outputs|) + ProjectionSum(outputs)
  }

  predicate ProjectionInBounds(outputs: seq<Projection>) {
    forall i :: 0 <= i < |outputs| ==> InBounds(outputs[i].record, 0)
  }

  lemma {:induction false} ProjectionMonotone(outputs: seq<Projection>, i: nat)
    requires i <= |outputs|
    ensures ProjectionSum(outputs[..i]) <= ProjectionSum(outputs)
    decreases |outputs| - i
  {
    if i < |outputs| {
      assert outputs[..i + 1][..i] == outputs[..i];
      ProjectionMonotone(outputs, i + 1);
    } else {
      assert outputs[..i] == outputs;
    }
  }

  method ProjectionSize(outputs: seq<Projection>, remaining: int) returns (r: Option<nat>)
    requires 0 <= remaining
    ensures r == if ProjectionInBounds(outputs) && ProjectionTotal(outputs) <= remaining
                 then Some(ProjectionTotal(outputs)) else None
  {
    if outputs == [] {
      return Some(0);
    }
    var size := 2;
    for i := 0 to |outputs|
      invariant size == 2 + Separators(i) + ProjectionSum(outputs[..i])
      invariant i > 0 ==> size <= remaining
      invariant forall k :: 0 <= k < i ==> InBounds(outputs[k].record, 0)
    {
      assert outputs[..i + 1][..i] == outputs[..i];
      var comma := if i > 0 then 1 else 0;
      var charge := comma + outputs[i].suffix;
      var record := WireSize.WireSize(outputs[i].record, remaining - size - charge, 0);
      if record.None? {
        ProjectionMonotone(outputs, i + 1);
        return None;
      }
      size := size + charge + record.value;
    }
    assert outputs[..|outputs|] == outputs;
    return Some(size);
  }

  // ----- Building the plan -----

  /** What the caller submits. `project` stands for the checks and records derived from
      the reviewed epoch bindings; it may refuse. */
  datatype Submission = Submission(
    inventory: Value,
    inventorySha: Text,
    decisionsJson: Text,
    declarationJson: Text,
    receiptJson: Text,
    project: (Value, Value) -> Option<seq<Projection>>)

  /** The selection document: exactly four members, a known version, and the digest of
      the inventory it was reviewed against. */
  predicate SelectionOk(selection: Value, inventorySha: Text) {
    && selection.Dict?
    && Record(map[], selection.members).Keys == {VERSION, INVENTORY_SHA256, DECISIONS, EPOCH_BINDINGS}
    && Lookup(selection.members, VERSION) in {Some(Int(1)), Some(Int(2))}
    && Lookup(selection.members, INVENTORY_SHA256) == Some(Str(inventorySha))
  }

  /** The value of one of the four members. */
  function Part(selection: Value, key: Text): Value {
    if selection.Dict? && Lookup(selection.members, key).Some? then Lookup(selection.members, key).value else Null
  }

  function VersionOf(selection: Value): int {
    if Part(selection, VERSION).Int? then Part(selection, VERSION).n else 0
  }

  /** A document that scans and decodes. */
  ghost predicate Readable(text: Text) {
    && text != [] && JsonFacts.Whole(text) && |text| <= 16_777_216 && |JsonLoad.Utf8Text(text)| <= 16_777_216
    && Decode(text).Some? && InDomain(Decode(text).value, 0)
  }

  ghost function Submitted(s: Submission): Value
    requires Readable(s.decisionsJson) && Readable(s.declarationJson) && Readable(s.receiptJson)
  {
    var selection := Decode(s.decisionsJson).value;
    PlanValue(VersionOf(selection), s.inventory, Part(selection, DECISIONS),
      Encode(Decode(s.declarationJson).value), Encode(Decode(s.receiptJson).value),
      Encode(Part(selection, EPOCH_BINDINGS)))
  }

  /** A submission is admitted when its documents are readable, its selection is bound to
      the inventory, and the finished plan together with the rollback projection fits. */
  ghost predicate Admissible(s: Submission) {
    && InBounds(s.inventory, 1)
    && Readable(s.decisionsJson) && Readable(s.declarationJson) && Readable(s.receiptJson)
    && var selection := Decode(s.decisionsJson).value;
    && Size(selection) <= DOCUMENT_BYTES
    && SelectionOk(selection, s.inventorySha) && Part(selection, DECISIONS).List?
    && var outputs := s.project(s.inventory, Part(selection, EPOCH_BINDINGS));
    && outputs.Some? && ProjectionInBounds(outputs.value)
    && Size(Submitted(s)) + ProjectionTotal(outputs.value) <= DOCUMENT_BYTES
  }

  lemma WrapperBounds(inventory: Value)
    ensures InBounds(Wrapper(inventory), 0) <==> InBounds(inventory, 1)
  {
    if InBounds(inventory, 1) {
      PlanInBounds(1, inventory, List([]), [], [], []);
    } else {
      assert Wrapper(inventory).members[1].val == inventory;
    }
  }

  lemma {:induction false} BoundsShallower(v: Value, depth: nat)
    requires InBounds(v, depth + 1)
    ensures InBounds(v, depth)
    decreases v
  {
    match v
    case List(items) =>
      forall i | 0 <= i < |items| ensures InBounds(items[i], depth + 1) { BoundsShallower(items[i], depth + 1); }
    case Dict(members) =>
      forall i | 0 <= i < |members|
        ensures InBounds(members[i].val, depth + 1)
      {
        BoundsShallower(members[i].val, depth + 1);
      }
    case _ =>
  }

  lemma SelectionRecorded(selection: Value)
    requires selection.Dict? && InDomain(selection, 0)
    requires Record(map[], selection.members).Keys == {VERSION, INVENTORY_SHA256, DECISIONS, EPOCH_BINDINGS}
    ensures Record(map[], selection.members)[DECISIONS] == MetricsOf(Part(selection, DECISIONS))
    ensures Record(map[], selection.members)[EPOCH_BINDINGS] == MetricsOf(Part(selection, EPOCH_BINDINGS))
    ensures InBounds(Part(selection, DECISIONS), 1)
    ensures InBounds(Part(selection, EPOCH_BINDINGS), 0)
  {
    var keys := Record(map[], selection.members).Keys;
    assert DECISIONS in keys && EPOCH_BINDINGS in keys;
    RecordLookup(selection.members, DECISIONS);
    RecordLookup(selection.members, EPOCH_BINDINGS);
    LookupInDomain(selection.members, DECISIONS);
    LookupInDomain(selection.members, EPOCH_BINDINGS);
    JsonRoundTrip.DomainInBounds(Part(selection, DECISIONS), 1);
    JsonRoundTrip.DomainInBounds(Part(selection, EPOCH_BINDINGS), 1);
    BoundsShallower(Part(selection, EPOCH_BINDINGS), 0);
  }

  lemma SelectionVersion(selection: Value, inventorySha: Text)
    requires SelectionOk(selection, inventorySha)
    ensures VersionOf(selection) == 1 || VersionOf(selection) == 2
  {
  }

  /** What the running reservation comes to, part by part. */
  ghost function Reserved(s: Submission): int
    requires Readable(s.decisionsJson) && Readable(s.declarationJson) && Readable(s.receiptJson)
  {
    var selection := Decode(s.decisionsJson).value;
    Size(Wrapper(s.inventory)) + Size(Part(selection, DECISIONS)) - 2 + Embedded(Part(selection, EPOCH_BINDINGS))
    + Embedded(Decode(s.declarationJson).value) + Embedded(Decode(s.receiptJson).value)
  }

  function Embedded(v: Value): nat { Size(v) + Overhead(v) }

  /** The reservation is the size of the finished plan, and the finished plan is in bounds. */
  lemma SubmittedReserved(s: Submission)
    requires Readable(s.decisionsJson) && Readable(s.declarationJson) && Readable(s.receiptJson)
    requires SelectionOk(Decode(s.decisionsJson).value, s.inventorySha)
    ensures Size(Submitted(s)) == Reserved(s)
    ensures InBounds(s.inventory, 1) ==> InBounds(Submitted(s), 0) && InBounds(Unsigned(Submitted(s)), 0)
    ensures Size(Unsigned(Submitted(s))) <= Size(Submitted(s))
  {
    hide Size;
    hide Overhead;
    hide InBounds;
    hide InDomain;
    hide Encode;
    hide Decode;
    hide Clean;
    hide Lookup;
    hide Record;
    hide TextSize;
    var selection := Decode(s.decisionsJson).value;
    var declaration, receipt := Decode(s.declarationJson).value, Decode(s.receiptJson).value;
    var decisions, epoch := Part(selection, DECISIONS), Part(selection, EPOCH_BINDINGS);
    SelectionVersion(selection, s.inventorySha);
    ReservationExact(VersionOf(selection), s.inventory, decisions, declaration, receipt, epoch);
    SelectionRecorded(selection);
    JsonFacts.EmbeddedLength(declaration);
    JsonFacts.EmbeddedLength(receipt);
    JsonFacts.EmbeddedLength(epoch);
    if InBounds(s.inventory, 1) {
      PlanInBounds(VersionOf(selection), s.inventory, decisions, Encode(declaration), Encode(receipt), Encode(epoch));
    }
    UnsignedSmaller(Submitted(s));
  }

  /** The charge of one embedded document, taken before the document is decoded. */
  method Preflight(text: Text, reserved: int) returns (r: Option<nat>)
    ensures r.Some? <==> text != [] && JsonFacts.Whole(text) && Accepts(text, DOCUMENT_BYTES - reserved + 2, true)
    ensures r.Some? ==> r.value == Embedded(Decode(text).value)
  {
    JsonFacts.WholeIsClean(text);
    if !JsonLoad.IsText(text) {
      return None;
    }
    var scanner := new Scanner(text, DOCUMENT_BYTES - reserved + 2);
    var metrics := scanner.Scan(true);
    return if metrics.None? then None else Some(metrics.value.plain + metrics.value.escapes);
  }

  /** The canonical text of a document that has passed its preflight. */
  method Canonical(text: Text, ghost reserved: int) returns (r: Option<Text>)
    requires text != [] && JsonFacts.Whole(text) && Accepts(text, DOCUMENT_BYTES - reserved + 2, true) && 0 <= reserved
    ensures r == if Readable(text) then Some(Encode(Decode(text).value)) else None
  {
    JsonLoad.DomainContained(Decode(text).value, 0);
    JsonRoundTrip.DomainInBounds(Decode(text).value, 0);
    JsonFacts.EncodeLength(Decode(text).value);
    var value := JsonLoad.Load(text);
    if value.None? {
      return None;
    }
    r := WireSize.PlanEncode(value.value);
  }

  /** The selection document with its two charged parts. */
  method Select(s: Submission) returns (r: Option<(Value, nat)>)
    ensures r.Some? <==>
      && Readable(s.decisionsJson) && Size(Decode(s.decisionsJson).value) <= DOCUMENT_BYTES
      && SelectionOk(Decode(s.decisionsJson).value, s.inventorySha)
    ensures r.Some? ==>
      && r.value.0 == Decode(s.decisionsJson).value
      && r.value.1 == Size(Part(r.value.0, DECISIONS)) + Embedded(Part(r.value.0, EPOCH_BINDINGS))
  {
    JsonFacts.WholeIsClean(s.decisionsJson);
    if !JsonLoad.IsText(s.decisionsJson) {
      return None;
    }
    var scanner := new Scanner(s.decisionsJson, DOCUMENT_BYTES);
    var scanned := scanner.Scan(false);
    if scanned.None? || scanner.members.Keys != {VERSION, INVENTORY_SHA256, DECISIONS, EPOCH_BINDINGS} {
      return None;
    }
    ghost var selection := Decode(s.decisionsJson).value;
    assert selection.Dict?;
    SelectionRecorded(selection);
    var decisions, epoch := scanner.members[DECISIONS], scanner.members[EPOCH_BINDINGS];
    JsonLoad.DomainContained(selection, 0);
    JsonRoundTrip.DomainInBounds(selection, 0);
    JsonFacts.EncodeLength(selection);
    var loaded := JsonLoad.Load(s.decisionsJson);
    if loaded.None? || !SelectionOk(loaded.value, s.inventorySha) {
      return None;
    }
    return Some((loaded.value, decisions.plain + epoch.plain + epoch.escapes));
  }

  /** Builds the plan of exactly the admissible submissions. Once the preflight has
      passed, the final check of the finished plan against the byte bound cannot fail. */
  method BuildRecoveryPlan<H>(s: Submission, digest: Text -> H) returns (r: Option<RecoveryPlan<H>>)
    ensures r.Some? <==> Admissible(s)
    ensures r.Some? ==>
      var selection := Decode(s.decisionsJson).value;
      r.value == RecoveryPlan(VersionOf(selection), s.inventory, Part(selection, DECISIONS),
        Encode(Decode(s.declarationJson).value), Encode(Decode(s.receiptJson).value),
        Encode(Part(selection, EPOCH_BINDINGS)), digest(Encode(Unsigned(Submitted(s)))))
  {
    hide Size;
    hide Overhead;
    hide InBounds;
    hide InDomain;
    hide Encode;
    hide Decode;
    hide Part;
    hide Clean;
    hide TextSize;
    hide VersionOf;
    hide ProjectionSum;
    WrapperBounds(s.inventory);
    WrapperSize(s.inventory);
    if Admissible(s) { SubmittedReserved(s); ListSize(Part(Decode(s.decisionsJson).value, DECISIONS)); }
    var wrapper := WireSize.WireSize(Wrapper(s.inventory), DOCUMENT_BYTES, 0);
    if wrapper.None? {
      return None;
    }
    var selected := Select(s);
    if selected.None? {
      return None;
    }
    var (selection, charge) := selected.value;
    var reserved: int := wrapper.value + charge - 2;
    if reserved > DOCUMENT_BYTES {
      return None;
    }
    var decisions, epoch := Part(selection, DECISIONS), Part(selection, EPOCH_BINDINGS);
    var outputs := s.project(s.inventory, epoch);
    if outputs.None? {
      return None;
    }
    var projected := ProjectionSize(outputs.value, DOCUMENT_BYTES - reserved);
    if projected.None? {
      return None;
    }
    reserved := reserved + projected.value;
    var declared := Preflight(s.declarationJson, reserved);
    if declared.None? {
      return None;
    }
    ghost var before := reserved;
    reserved := reserved + declared.value;
    var received := Preflight(s.receiptJson, reserved);
    if received.None? {
      return None;
    }
    var declaration := Canonical(s.declarationJson, before);
    var receipt := Canonical(s.receiptJson, reserved);
    if declaration.None? || receipt.None? {
      return None;
    }
    SubmittedReserved(s);
    SelectionRecorded(selection);
    var epochText := WireSize.PlanEncode(epoch);
    var value := PlanValue(VersionOf(selection), s.inventory, decisions, declaration.value, receipt.value,
      epochText.value);
    var size := WireSize.WireSize(value, DOCUMENT_BYTES, 0);
    if size.None? {
      assert false;
    }
    if !decisions.List? {
      return None;
    }
    var sha := WireSize.PlanHash(Unsigned(value), digest);
    return Some(RecoveryPlan(VersionOf(selection), s.inventory, decisions,
      declaration.value, receipt.value, epochText.value, sha.value));
  }

  lemma ListSize(v: Value)
    ensures v.List? ==> Size(v) >= 2
  {
  }

  lemma WrapperSize(inventory: Value)
    ensures Size(Wrapper(inventory)) >= 2
  {
  }
}

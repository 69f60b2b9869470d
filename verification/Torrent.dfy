/** The identity of a torrent: hashes of the exact raw bytes of its `info` dictionary. */
module Torrent {
  import opened Bencode
  import opened Text

  const INFO: Bytes := Ascii("info")
  function MetaVersionKey(): Bytes { Ascii("meta version") }
  const FILE_TREE: Bytes := Ascii("file tree")
  const PIECES: Bytes := Ascii("pieces")

  datatype Identity = Identity(qbitHash: Bytes, lookupHashes: seq<Bytes>)

  /** The first twenty bytes of a digest, as a slice takes them. */
  function Best(digest: Bytes): Bytes { if |digest| <= 20 then digest else digest[..20] }

  // ----- What an identity means -----

  function Member(entries: seq<Entry<BValue>>, key: Bytes): Option<BValue> {
    if entries == [] then None
    else if entries[0].key == key then Some(entries[0].val)
    else Member(entries[1..], key)
  }

  /** The input is one dictionary, keys strictly increasing, holding `info` as a
      dictionary whose keys strictly increase too. */
  ghost predicate IsTorrent(data: Bytes, entries: seq<Entry<BValue>>, info: seq<Entry<BValue>>) {
    && Encodes(data, BDict(entries), 0)
    && Sorted(entries) && Member(entries, INFO) == Some(BDict(info))
    && Sorted(info)
  }

  /** The dictionary has a member of this name with this value. */
  predicate Has(entries: seq<Entry<BValue>>, key: string, val: BValue) { Entry(Ascii(key), val) in entries }

  ghost predicate HasKey(entries: seq<Entry<BValue>>, key: string) { exists val :: Has(entries, key, val) }

  /** The hashes of the raw info dictionary that its own members select: SHA-1 for a torrent of the
      first version, the truncated SHA-256 for one of the second, which in a hybrid is followed by
      the SHA-1. */
  ghost predicate Selects(info: seq<Entry<BValue>>, raw: Bytes, sha1: Bytes -> Bytes, sha256: Bytes -> Bytes,
                          id: Identity)
  {
    || (!HasKey(info, "meta version") && id == Identity(sha1(raw), [sha1(raw)]))
    || (Has(info, "meta version", BInt(2)) && HasKey(info, "file tree")
        && id == Identity(Best(sha256(raw)),
             if HasKey(info, "pieces") then [Best(sha256(raw)), sha1(raw)] else [Best(sha256(raw))]))
  }

  /** The input is a torrent with this identity. */
  ghost predicate Identifies(data: Bytes, sha1: Bytes -> Bytes, sha256: Bytes -> Bytes, id: Identity) {
    exists entries, info :: Describes(data, entries, info) && Selects(info, Encode(BDict(info)), sha1, sha256, id)
  }

  /** The input is one dictionary with rising keys, and so is its member `info`. */
  ghost predicate Describes(data: Bytes, entries: seq<Entry<BValue>>, info: seq<Entry<BValue>>) {
    Encodes(data, BDict(entries), 0) && Sorted(entries) && Has(entries, "info", BDict(info)) && Sorted(info)
  }

  /** The same, read off the members as they are found. */
  function InfoIdentity(info: seq<Entry<BValue>>, raw: Bytes, sha1: Bytes -> Bytes,
          sha256: Bytes -> Bytes): Option<Identity>
  {
    var meta := Member(info, MetaVersionKey());
    if meta.None? then Some(Identity(sha1(raw), [sha1(raw)]))
    else if meta != Some(BInt(2)) || Member(info, FILE_TREE).None? then None
    else
      var best := Best(sha256(raw));
      Some(Identity(best, if Member(info, PIECES).Some? then [best, sha1(raw)] else [best]))
  }

  /** With rising keys, the member found under a key is the one there is. */
  lemma {:induction false} MemberExactly(entries: seq<Entry<BValue>>, key: Bytes)
    requires Sorted(entries)
    ensures forall val :: Member(entries, key) == Some(val) <==> Entry(key, val) in entries
  {
    if entries != [] {
      MemberExactly(entries[1..], key);
      if entries[0].key == key {
        forall val | Entry(key, val) in entries ensures val == entries[0].val {
          var i :| 0 <= i < |entries| && entries[i] == Entry(key, val);
          if i > 0 { LessIrreflexive(key); }
        }
      }
      assert entries == [entries[0]] + entries[1..];
    }
  }

  lemma KeyExactly(entries: seq<Entry<BValue>>, key: string)
    requires Sorted(entries)
    ensures HasKey(entries, key) <==> Member(entries, Ascii(key)).Some?
    ensures forall val :: Has(entries, key, val) <==> Member(entries, Ascii(key)) == Some(val)
  {
    hide Sorted;
    hide Ascii;
    MemberExactly(entries, Ascii(key));
    if Member(entries, Ascii(key)).Some? { assert Has(entries, key, Member(entries, Ascii(key)).value); }
  }

  lemma SelectsExactly(info: seq<Entry<BValue>>, raw: Bytes, sha1: Bytes -> Bytes, sha256: Bytes -> Bytes)
    requires Sorted(info)
    ensures forall id :: Selects(info, raw, sha1, sha256, id) <==> InfoIdentity(info, raw, sha1, sha256) == Some(id)
  {
    hide Sorted;
    hide Ascii;
    hide Member;
    hide Has;
    hide HasKey;
    KeyExactly(info, "meta version");
    KeyExactly(info, "file tree");
    KeyExactly(info, "pieces");
  }

  lemma IdentifiesExactly(data: Bytes, sha1: Bytes -> Bytes, sha256: Bytes -> Bytes, id: Identity)
    ensures Identifies(data, sha1, sha256, id) <==>
      exists entries, info ::
        IsTorrent(data, entries, info) && InfoIdentity(info, Encode(BDict(info)), sha1, sha256) == Some(id)
  {
    hide Sorted;
    hide Ascii;
    hide Member;
    hide Has;
    hide Selects;
    hide InfoIdentity;
    hide Encode;
    hide DepthOk;
    hide IsTorrent;
    hide Describes;
    forall entries, info
      ensures IsTorrent(data, entries, info) <==> Describes(data, entries, info)
      ensures IsTorrent(data, entries, info) ==>
        (Selects(info, Encode(BDict(info)), sha1, sha256, id) <==>
         InfoIdentity(info, Encode(BDict(info)), sha1, sha256) == Some(id))
    {
      TorrentHas(data, entries, info);
      if IsTorrent(data, entries, info) { SelectsExactly(info, Encode(BDict(info)), sha1, sha256); }
    }
  }

  lemma TorrentHas(data: Bytes, entries: seq<Entry<BValue>>, info: seq<Entry<BValue>>)
    ensures IsTorrent(data, entries, info) <==> Describes(data, entries, info)
    ensures IsTorrent(data, entries, info) ==> Sorted(info)
  {
    hide Encodes;
    hide Sorted;
    hide Ascii;
    hide Member;
    hide Has;
    if Sorted(entries) { KeyExactly(entries, "info"); }
  }

  // ----- Entries read from left to right -----

  lemma {:induction false} MemberAppend(a: seq<Entry<BValue>>, b: seq<Entry<BValue>>, key: Bytes)
    ensures Member(a + b, key) == if Member(a, key).Some? then Member(a, key) else Member(b, key)
  {
    if a == [] {
      assert a + b == b;
    } else {
      assert (a + b)[1..] == a[1..] + b;
      MemberAppend(a[1..], b, key);
    }
  }

  lemma MemberStep(acc: seq<Entry<BValue>>, e: Entry<BValue>, key: Bytes)
    ensures Member(acc + [e], key) ==
      if Member(acc, key).Some? then Member(acc, key) else if e.key == key then Some(e.val) else None
  {
    MemberAppend(acc, [e], key);
    assert [e][1..] == [];
  }

  lemma {:induction false} MemberIn(entries: seq<Entry<BValue>>, key: Bytes)
    ensures Member(entries, key).Some? ==> exists i :: 0 <= i < |entries| && entries[i].key == key
  {
    if entries != [] && entries[0].key != key {
      MemberIn(entries[1..], key);
      if Member(entries, key).Some? {
        var i :| 0 <= i < |entries[1..]| && entries[1..][i].key == key;
        assert entries[i + 1].key == key;
      }
    }
  }

  /** Comparing each key with its predecessor is enough to keep all of them in order, and
      a key out of order spoils every dictionary that starts this way. */
  lemma SortedStep(acc: seq<Entry<BValue>>, e: Entry<BValue>)
    requires Sorted(acc)
    ensures Sorted(acc + [e]) <==> acc == [] || Less(acc[|acc| - 1].key, e.key)
    ensures Sorted(acc + [e]) ==> Member(acc, e.key).None?
  {
    var next := acc + [e];
    if acc != [] {
      if Less(acc[|acc| - 1].key, e.key) {
        forall i | 0 <= i < |acc| ensures Less(next[i].key, e.key) {
          if i < |acc| - 1 { LessTransitive(acc[i].key, acc[|acc| - 1].key, e.key); }
        }
      } else {
        assert !Less(next[|acc| - 1].key, next[|acc|].key);
      }
    }
    MemberIn(acc, e.key);
    forall i | 0 <= i < |acc| && Sorted(next) ensures acc[i].key != e.key {
      assert next[i] == acc[i] && next[|acc|] == e;
      LessIrreflexive(e.key);
    }
  }

  /** An entry read next belongs to the dictionary that is being read. */
  lemma EntryBelongs(t: Bytes, depth: nat, acc: seq<Entry<BValue>>)
    requires ParseEntries(t, depth, acc).Some? && t[0] != END
    ensures ParseEntry(t, depth).Some?
    ensures var e, whole := ParseEntry(t, depth).value, ParseEntries(t, depth, acc).value.val;
      && ParseEntries(t, depth, acc) == ParseEntries(e.rest, depth, acc + [e.val])
      && acc + [e.val] <= whole
      && (Sorted(whole) ==> Sorted(acc + [e.val]))
  {
    var e := ParseEntry(t, depth).value;
    var whole := ParseEntries(t, depth, acc).value.val;
    EntriesSound(e.rest, depth, acc + [e.val]);
    assert whole[..|acc| + 1] == acc + [e.val];
  }

  /** A member found among the entries read so far is that member of the dictionary. */
  lemma MemberKept(part: seq<Entry<BValue>>, whole: seq<Entry<BValue>>, key: Bytes)
    requires part <= whole && Member(part, key).Some?
    ensures Member(whole, key) == Member(part, key)
  {
    assert whole == part + whole[|part|..];
    MemberAppend(part, whole[|part|..], key);
  }

  /** The value read starts with the dictionary marker exactly when it is a dictionary. */
  lemma DictMarker(t: Bytes, depth: nat)
    requires Parse(t, depth).Some?
    ensures t[0] == DICT <==> Parse(t, depth).value.val.BDict?
    ensures t[0] == DICT ==>
      ParseEntries(t[1..], depth, []) == Some(Parsed(Parse(t, depth).value.val.entries, Parse(t, depth).value.rest))
    ensures t[0] == INTEGER <==> Parse(t, depth).value.val.BInt?
  {
  }

  lemma IntegerSpan(data: Bytes, start: nat, end: nat, depth: nat)
    requires start < end <= |data| && data[start] == INTEGER
    requires Parse(data[start..], depth).Some? && Parse(data[start..], depth).value.rest == data[end..]
    ensures start + 1 < end && IntegerOk(data[start + 1..end - 1])
    ensures Parse(data[start..], depth).value.val == BInt(IntegerValue(data[start + 1..end - 1]))
  {
    var t := data[start..][1..];
    var stop := Find(t, END);
    assert t == data[start + 1..];
    assert |t[stop + 1..]| == |data[end..]|;
    assert t[..stop] == data[start + 1..end - 1];
  }

  ghost predicate KeysOf(entries: seq<Entry<BValue>>, keys: set<Bytes>) {
    forall k :: k in keys <==> Member(entries, k).Some?
  }

  lemma KeysStep(acc: seq<Entry<BValue>>, e: Entry<BValue>, keys: set<Bytes>)
    requires KeysOf(acc, keys)
    ensures KeysOf(acc + [e], keys + {e.key})
  {
    forall k ensures k in keys + {e.key} <==> Member(acc + [e], k).Some? { MemberStep(acc, e, k); }
  }

  // ----- The two passes -----

  /** The dictionary of the whole input, when its keys are in order. */
  ghost predicate Outer(data: Bytes, entries: seq<Entry<BValue>>) {
    && data != [] && data[0] == DICT
    && ParseEntries(data[1..], 0, []) == Some(Parsed(entries, [])) && Sorted(entries)
  }

  /** One key with its value: the key, where the value starts, and where it ends. */
  method ReadEntry(data: Bytes, cursor: nat, depth: nat) returns (r: Option<(Bytes, nat, nat)>)
    requires cursor <= |data|
    ensures r.None? <==> ParseEntry(data[cursor..], depth).None?
    ensures r.Some? ==>
      && cursor < r.value.1 < r.value.2 <= |data|
      && ParseEntry(data[cursor..], depth).value.rest == data[r.value.2..]
      && ParseEntry(data[cursor..], depth).value.val.key == r.value.0
      && Parse(data[r.value.1..], depth + 1) ==
           Some(Parsed(ParseEntry(data[cursor..], depth).value.val.val, data[r.value.2..]))
  {
    hide Parse;
    hide ParseString;
    var key := SkipString(data, cursor);
    if key.None? {
      return None;
    }
    var next := SkipValue(data, key.value.1, depth + 1);
    if next.None? {
      return None;
    }
    return Some((key.value.0, key.value.1, next.value));
  }

  /** First pass: the span of the info dictionary. */
  method InfoSpan(data: Bytes) returns (r: Option<(nat, nat)>, ghost entries: seq<Entry<BValue>>)
    ensures r.Some? ==>
      && Outer(data, entries) && r.value.0 < r.value.1 <= |data|
      && Member(entries, INFO).Some? && Member(entries, INFO).value.BDict?
      && Parse(data[r.value.0..], 1) == Some(Parsed(Member(entries, INFO).value, data[r.value.1..]))
    ensures r.None? ==> forall all :: Outer(data, all) ==> !(Member(all, INFO).Some? && Member(all, INFO).value.BDict?)
  {
    hide Parse;
    hide ParseEntry;
    hide Member;
    hide Sorted;
    entries := [];
    if data == [] || data[0] != DICT {
      return None, [];
    }
    EmptyEntries();
    var cursor, span: Option<(nat, nat)>, previousKey: Option<Bytes> := 1, None, None;
    while cursor < |data| && data[cursor] != END
      invariant 1 <= cursor <= |data|
      invariant ParseEntries(data[1..], 0, []) == ParseEntries(data[cursor..], 0, entries)
      invariant Sorted(entries)
      invariant previousKey == if entries == [] then None else Some(entries[|entries| - 1].key)
      invariant span.None? <==> Member(entries, INFO).None?
      invariant span.Some? ==>
        && span.value.0 < span.value.1 <= cursor && Member(entries, INFO).value.BDict?
        && Parse(data[span.value.0..], 1) == Some(Parsed(Member(entries, INFO).value, data[span.value.1..]))
      decreases |data| - cursor
    {
      ghost var here := data[cursor..];
      ghost var whole := ParseEntries(here, 0, entries);
      if whole.Some? { EntryBelongs(here, 0, entries); }
      var read := ReadEntry(data, cursor, 0);
      if read.None? {
        return None, [];
      }
      var (key, start, next) := read.value;
      ghost var e := ParseEntry(here, 0).value.val;
      SortedStep(entries, e);
      MemberStep(entries, e, INFO);
      DictMarker(data[start..], 1);
      if previousKey.Some? && !Less(previousKey.value, key) {
        return None, [];
      }
      previousKey := Some(key);
      cursor := next;
      if key == INFO {
        if span.Some? || data[start] != DICT {
          if whole.Some? && Sorted(entries + [e]) { MemberKept(entries + [e], whole.value.val, INFO); }
          return None, [];
        }
        span := Some((start, cursor));
      }
      entries := entries + [e];
    }
    if cursor >= |data| || cursor + 1 != |data| {
      return None, [];
    }
    assert data[cursor..][1..] == [];
    return span, entries;
  }

  lemma EmptyEntries()
    ensures Sorted<BValue>([]) && KeysOf([], {}) && MetaOf([], None) && forall k :: Member([], k).None?
  {
  }

  /** The entries `acc` and then `e` are the first ones of the dictionary. */
  ghost predicate Starts(acc: seq<Entry<BValue>>, e: Entry<BValue>, info: seq<Entry<BValue>>) {
    acc + [e] <= info
  }

  lemma StartsSorted(acc: seq<Entry<BValue>>, e: Entry<BValue>, info: seq<Entry<BValue>>)
    requires Starts(acc, e, info) && Sorted(info)
    ensures Sorted(acc + [e])
  {
    assert info[..|acc| + 1] == acc + [e];
  }

  /** The member the dictionary has under the key of an entry read in order. */
  lemma StartsMember(acc: seq<Entry<BValue>>, e: Entry<BValue>, info: seq<Entry<BValue>>)
    requires Starts(acc, e, info) && Sorted(acc + [e]) && Sorted(acc)
    requires e.key == MetaVersionKey() && !e.val.BInt?
    ensures MetaWrong(info)
  {
    SortedStep(acc, e);
    MemberStep(acc, e, e.key);
    MemberKept(acc + [e], info, e.key);
  }

  /** The `meta version` among these entries, and the only kind of value it may have. */
  ghost predicate MetaOf(entries: seq<Entry<BValue>>, meta: Option<int>) {
    Member(entries, MetaVersionKey()) == if meta.Some? then Some(BInt(meta.value)) else None
  }

  ghost predicate MetaWrong(entries: seq<Entry<BValue>>) {
    Member(entries, MetaVersionKey()).Some? && !Member(entries, MetaVersionKey()).value.BInt?
  }

  lemma MetaNew(acc: seq<Entry<BValue>>, e: Entry<BValue>, n: int)
    requires Sorted(acc) && Sorted(acc + [e]) && e.key == MetaVersionKey() && e.val == BInt(n)
    ensures MetaOf(acc + [e], Some(n))
  {
    SortedStep(acc, e);
    MemberStep(acc, e, MetaVersionKey());
  }

  lemma MetaRight(entries: seq<Entry<BValue>>, meta: Option<int>)
    requires MetaOf(entries, meta)
    ensures !MetaWrong(entries)
  {
  }

  lemma MetaSame(acc: seq<Entry<BValue>>, e: Entry<BValue>, meta: Option<int>)
    requires MetaOf(acc, meta) && e.key != MetaVersionKey()
    ensures MetaOf(acc + [e], meta)
  {
    MemberStep(acc, e, MetaVersionKey());
  }

  /** Before the closing marker of the info dictionary there is another entry. */
  lemma InfoContinues(data: Bytes, cursor: nat, end: nat, acc: seq<Entry<BValue>>, info: seq<Entry<BValue>>)
    requires cursor < end - 1 && end <= |data|
    requires ParseEntries(data[cursor..], 1, acc) == Some(Parsed(info, data[end..]))
    ensures data[cursor] != END && ParseEntry(data[cursor..], 1).Some?
    ensures var e := ParseEntry(data[cursor..], 1).value;
      && ParseEntries(e.rest, 1, acc + [e.val]) == Some(Parsed(info, data[end..]))
      && |e.rest| > |data| - end
      && Starts(acc, e.val, info)
  {
    var here := data[cursor..];
    assert |here[1..]| > |data[end..]|;
    EntryBelongs(here, 1, acc);
  }

  lemma InfoStarts(data: Bytes, start: nat, end: nat, info: seq<Entry<BValue>>)
    requires start < end <= |data|
    requires Parse(data[start..], 1) == Some(Parsed(BDict(info), data[end..]))
    ensures start + 1 <= end - 1
    ensures ParseEntries(data[start + 1..], 1, []) == Some(Parsed(info, data[end..]))
  {
    DictMarker(data[start..], 1);
    ParseSound(data[start..], 1);
    assert data[start..][1..] == data[start + 1..];
  }

  /** At the closing marker every entry has been read. */
  lemma InfoEnds(data: Bytes, end: nat, acc: seq<Entry<BValue>>, info: seq<Entry<BValue>>)
    requires 1 <= end <= |data|
    requires ParseEntries(data[end - 1..], 1, acc) == Some(Parsed(info, data[end..]))
    ensures acc == info
  {
    EntriesSound(data[end - 1..], 1, acc);
    assert |EncodeEntries(info[|acc|..])| == 0;
  }

  /** The number a `meta version` member holds, if it is one. */
  method MetaVersion(data: Bytes, start: nat, end: nat,
                     ghost acc: seq<Entry<BValue>>, ghost e: Entry<BValue>, ghost info: seq<Entry<BValue>>)
    returns (r: Option<int>)
    requires start < end <= |data| && Parse(data[start..], 2) == Some(Parsed(e.val, data[end..]))
    requires e.key == MetaVersionKey() && Starts(acc, e, info) && Sorted(acc) && Sorted(acc + [e])
    ensures if r.Some? then MetaOf(acc + [e], r) else MetaWrong(info)
  {
    DictMarker(data[start..], 2);
    if data[start] != INTEGER {
      StartsMember(acc, e, info);
      return None;
    }
    IntegerSpan(data, start, end, 2);
    var number := IntegerValue(data[start + 1..end - 1]);
    MetaNew(acc, e, number);
    return Some(number);
  }

  /** Second pass: the members of the info dictionary. It reads the same bytes at the same
      depth, so it can neither fail to read them nor end anywhere but at the closing
      marker. */
  method InfoMembers(data: Bytes, start: nat, end: nat, ghost info: seq<Entry<BValue>>)
    returns (ok: bool, meta: Option<int>, keys: set<Bytes>)
    requires start < end <= |data|
    requires Parse(data[start..], 1) == Some(Parsed(BDict(info), data[end..]))
    ensures ok <==> Sorted(info) && !MetaWrong(info)
    ensures ok ==> MetaOf(info, meta)
    ensures ok ==> KeysOf(info, keys)
  {
    hide Parse;
    hide ParseEntry;
    hide ParseEntries;
    hide Encode;
    hide Member;
    hide Sorted;
    hide Ascii;
    hide Less;
    hide IntegerOk;
    hide IntegerValue;
    hide EncodeEntries;
    hide KeysOf;
    hide MetaVersionKey;
    hide Starts;
    hide MetaOf;
    hide MetaWrong;
    InfoStarts(data, start, end, info);
    EmptyEntries();
    var cursor := start + 1;
    meta, keys := None, {};
    var previousKey: Option<Bytes> := None;
    ghost var acc: seq<Entry<BValue>> := [];
    while cursor < end - 1
      invariant start < cursor <= end - 1
      invariant ParseEntries(data[cursor..], 1, acc) == Some(Parsed(info, data[end..]))
      invariant Sorted(acc)
      invariant previousKey == if acc == [] then None else Some(acc[|acc| - 1].key)
      invariant MetaOf(acc, meta)
      invariant KeysOf(acc, keys)
      decreases end - cursor
    {
      ghost var here := data[cursor..];
      InfoContinues(data, cursor, end, acc, info);
      var read := ReadEntry(data, cursor, 1);
      var (key, valueStart, next) := read.value;
      ghost var e := ParseEntry(here, 1).value.val;
      SortedStep(acc, e);
      if Sorted(info) { StartsSorted(acc, e, info); }
      if previousKey.Some? && !Less(previousKey.value, key) {
        return false, None, {};
      }
      previousKey := Some(key);
      KeysStep(acc, e, keys);
      keys := keys + {key};
      if key == MetaVersionKey() {
        meta := MetaVersion(data, valueStart, next, acc, e, info);
        if meta.None? {
          return false, None, {};
        }
      } else {
        MetaSame(acc, e, meta);
      }
      cursor := next;
      acc := acc + [e];
    }
    if cursor != end - 1 {
      assert false;
    }
    InfoEnds(data, end, acc, info);
    MetaRight(info, meta);
    ok := true;
  }

  /** The whole input read as one dictionary. */
  lemma OuterMeaning(data: Bytes, entries: seq<Entry<BValue>>)
    ensures Outer(data, entries) <==> Encodes(data, BDict(entries), 0) && Sorted(entries)
  {
    if Encodes(data, BDict(entries), 0) {
      ParseComplete(BDict(entries), 0, []);
      assert Encode(BDict(entries)) + [] == data;
      DictMarker(data, 0);
    }
    if Outer(data, entries) {
      assert Parse(data, 0) == Some(Parsed(BDict(entries), []));
      ParseSound(data, 0);
    }
  }

  /** An identity is returned exactly for torrents whose info dictionary selects one, and
      it hashes exactly the encoding of that dictionary. */
  method TorrentInfoIdentity(data: Bytes, sha1: Bytes -> Bytes, sha256: Bytes -> Bytes) returns (r: Option<Identity>)
    ensures forall id :: r == Some(id) <==> Identifies(data, sha1, sha256, id)
  {
    forall id ensures Identifies(data, sha1, sha256, id) <==>
        exists entries, info ::
          IsTorrent(data, entries, info) && InfoIdentity(info, Encode(BDict(info)), sha1, sha256) == Some(id)
    {
      IdentifiesExactly(data, sha1, sha256, id);
    }
    var span, entries := InfoSpan(data);
    forall all ensures Outer(data, all) <==> Encodes(data, BDict(all), 0) && Sorted(all) { OuterMeaning(data, all); }
    if span.None? {
      return None;
    }
    var (start, end) := span.value;
    ghost var info := Member(entries, INFO).value.entries;
    forall all, other | IsTorrent(data, all, other) ensures other == info { }
    var ok, meta, keys := InfoMembers(data, start, end, info);
    if !ok {
      return None;
    }
    var raw := data[start..end];
    SpanIsEncoding(data, start, end, info);
    assert IsTorrent(data, entries, info);
    if meta.None? {
      return Some(Identity(sha1(raw), [sha1(raw)]));
    }
    if meta.value != 2 || FILE_TREE !in keys {
      return None;
    }
    var best := Best(sha256(raw));
    var lookup := if PIECES in keys then [best, sha1(raw)] else [best];
    return Some(Identity(best, lookup));
  }

  /** The hashed span is the encoding of the info dictionary, byte for byte. */
  lemma SpanIsEncoding(data: Bytes, start: nat, end: nat, info: seq<Entry<BValue>>)
    requires start < end <= |data|
    requires Parse(data[start..], 1) == Some(Parsed(BDict(info), data[end..]))
    ensures data[start..end] == Encode(BDict(info))
  {
    ParseSound(data[start..], 1);
    assert data[start..][..end - start] == data[start..end];
    assert |Encode(BDict(info))| == end - start;
  }
}

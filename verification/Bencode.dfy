/** The bencode skipper: bounded nesting, canonical numerals, no value built. Its meaning
    is the grammar of BEP 3 (section "Bencoding") without the rule that dictionary keys
    are sorted, which the skipper does not check.

    Bytes are numbers; nothing here depends on their being below 256. */
module Bencode {
  import opened Decimal
  import opened Text

  type Bytes = Text

  const MAX_DEPTH := 100
  const INTEGER: Code := 'i' as int
  const LIST: Code := 'l' as int
  const DICT: Code := 'd' as int
  const END: Code := 'e' as int
  const COLON: Code := ':' as int
  const MINUS: Code := '-' as int

  datatype BValue =
    | BInt(n: int)
    | BBytes(s: Bytes)
    | BList(items: seq<BValue>)
    | BDict(entries: seq<Entry<BValue>>)

  // ----- The grammar -----

  function EncodeInt(n: int): Bytes {
    if n < 0 then ['-' as int] + Digits(-n) else Digits(n)
  }

  function EncodeString(s: Bytes): Bytes {
    Digits(|s|) + [':' as int] + s
  }

  function Encode(v: BValue): Bytes
    decreases v, 1
  {
    match v
    case BInt(n) => ['i' as int] + EncodeInt(n) + ['e' as int]
    case BBytes(s) => EncodeString(s)
    case BList(items) => ['l' as int] + EncodeItems(items) + ['e' as int]
    case BDict(entries) => ['d' as int] + EncodeEntries(entries) + ['e' as int]
  }

  function EncodeItems(items: seq<BValue>): Bytes
    decreases items, 0
  {
    if items == [] then [] else Encode(items[0]) + EncodeItems(items[1..])
  }

  function EncodeEntry(e: Entry<BValue>): Bytes
    decreases e, 2
  {
    EncodeString(e.key) + Encode(e.val)
  }

  function EncodeEntries(entries: seq<Entry<BValue>>): Bytes
    decreases entries, 3
  {
    if entries == [] then [] else EncodeEntry(entries[0]) + EncodeEntries(entries[1..])
  }

  /** The value's nesting stays within the bound when it starts at `depth`. */
  predicate DepthOk(v: BValue, depth: nat)
    decreases v
  {
    && depth <= MAX_DEPTH
    && match v
       case BList(items) => forall i :: 0 <= i < |items| ==> DepthOk(items[i], depth + 1)
       case BDict(entries) => forall i :: 0 <= i < |entries| ==> DepthOk(entries[i].val, depth + 1)
       case _ => true
  }

  /** Collections enclosing each other: a list where the shape says so, a dictionary elsewhere. */
  function Nested(shape: seq<bool>): BValue {
    if shape == [] then BInt(0)
    else if shape[0] then BList([Nested(shape[1..])])
    else BDict([Entry([], Nested(shape[1..]))])
  }

  /** A hundred collections may enclose a value, and no more. */
  lemma {:induction false} DepthEdge(shape: seq<bool>, depth: nat)
    ensures DepthOk(Nested(shape), depth) <==> depth + |shape| <= 100
    decreases |shape|
  {
    if shape != [] {
      DepthEdge(shape[1..], depth + 1);
      var v := Nested(shape);
      assert DepthOk(v, depth) ==> DepthOk(if shape[0] then v.items[0] else v.entries[0].val, depth + 1);
    }
  }

  /** The bytes are the encoding of one value within the depth bound. */
  ghost predicate Encodes(bytes: Bytes, v: BValue, depth: nat) {
    bytes == Encode(v) && DepthOk(v, depth)
  }

  // ----- A reader that builds the value -----

  datatype Parsed<+T> = Parsed(val: T, rest: Bytes)

  /** The index of the first occurrence, or the length. */
  function Find(t: Bytes, b: Code): (n: nat)
    ensures n <= |t| && (n < |t| ==> t[n] == b)
    ensures forall i :: 0 <= i < n ==> t[i] != b
  {
    if t == [] || t[0] == b then 0 else 1 + Find(t[1..], b)
  }

  function ParseString(t: Bytes): (r: Option<Parsed<Bytes>>)
    ensures r.Some? ==> |r.value.rest| < |t|
  {
    var colon := Find(t, COLON);
    if colon == |t| || !Canonical(t[..colon]) then None
    else
      var length := DigitsValue(t[..colon]);
      if colon + 1 + length > |t| then None
      else Some(Parsed(t[colon + 1..colon + 1 + length], t[colon + 1 + length..]))
  }

  /** The numeral between the markers of an integer. */
  predicate IntegerOk(numeral: Bytes) {
    && numeral != []
    && Canonical(if numeral[0] == MINUS then numeral[1..] else numeral)
    && numeral != [MINUS, 48]
  }

  function IntegerValue(numeral: Bytes): int
    requires IntegerOk(numeral)
  {
    if numeral[0] == MINUS then
      var m: int := DigitsValue(numeral[1..]);
      -m
    else DigitsValue(numeral)
  }

  function ParseInt(t: Bytes): (r: Option<Parsed<BValue>>)
    ensures r.Some? ==> |r.value.rest| < |t|
  {
    var end := Find(t, END);
    if end == |t| || !IntegerOk(t[..end]) then None
    else Some(Parsed(BInt(IntegerValue(t[..end])), t[end + 1..]))
  }

  function Parse(t: Bytes, depth: nat): (r: Option<Parsed<BValue>>)
    ensures r.Some? ==> |r.value.rest| < |t|
    decreases |t|, 1
  {
    if depth > MAX_DEPTH || t == [] then None
    else if t[0] == INTEGER then ParseInt(t[1..])
    else if t[0] == LIST then
      var items := ParseItems(t[1..], depth, []);
      if items.None? then None else Some(Parsed(BList(items.value.val), items.value.rest))
    else if t[0] == DICT then
      var entries := ParseEntries(t[1..], depth, []);
      if entries.None? then None else Some(Parsed(BDict(entries.value.val), entries.value.rest))
    else if 48 <= t[0] <= 57 then
      var s := ParseString(t);
      if s.None? then None else Some(Parsed(BBytes(s.value.val), s.value.rest))
    else None
  }

  /** The rest of a list, after the items `acc`. */
  function ParseItems(t: Bytes, depth: nat, acc: seq<BValue>): (r: Option<Parsed<seq<BValue>>>)
    ensures r.Some? ==> |r.value.rest| < |t|
    decreases |t|, 2
  {
    if t == [] then None
    else if t[0] == END then Some(Parsed(acc, t[1..]))
    else
      var v := Parse(t, depth + 1);
      if v.None? then None else ParseItems(v.value.rest, depth, acc + [v.value.val])
  }

  function ParseEntry(t: Bytes, depth: nat): (r: Option<Parsed<Entry<BValue>>>)
    ensures r.Some? ==> |r.value.rest| < |t|
    decreases |t|, 2
  {
    var k := ParseString(t);
    if k.None? then None
    else
      var v := Parse(k.value.rest, depth + 1);
      if v.None? then None else Some(Parsed(Entry(k.value.val, v.value.val), v.value.rest))
  }

  /** The rest of a dictionary, after the entries `acc`. */
  function ParseEntries(t: Bytes, depth: nat, acc: seq<Entry<BValue>>): (r: Option<Parsed<seq<Entry<BValue>>>>)
    ensures r.Some? ==> |r.value.rest| < |t|
    decreases |t|, 3
  {
    if t == [] then None
    else if t[0] == END then Some(Parsed(acc, t[1..]))
    else
      var e := ParseEntry(t, depth);
      if e.None? then None else ParseEntries(e.value.rest, depth, acc + [e.value.val])
  }

  // ----- What is read is an encoding -----

  lemma StringSound(t: Bytes)
    requires ParseString(t).Some?
    ensures t == EncodeString(ParseString(t).value.val) + ParseString(t).value.rest
  {
    hide Find;
    hide Digits;
    hide DigitsValue;
    hide Canonical;
    var colon := Find(t, COLON);
    DigitsUnique(t[..colon]);
    var length := DigitsValue(t[..colon]);
    assert t == t[..colon] + [COLON] + t[colon + 1..colon + 1 + length] + t[colon + 1 + length..];
  }

  lemma NumeralUnique(numeral: Bytes)
    requires IntegerOk(numeral)
    ensures EncodeInt(IntegerValue(numeral)) == numeral
  {
    if numeral[0] == MINUS {
      var d := numeral[1..];
      assert numeral == [MINUS] + d;
      DigitsUnique(d);
      assert d[0] == 48 ==> d == [48];
    } else {
      DigitsUnique(numeral);
    }
  }

  lemma IntSound(t: Bytes)
    requires ParseInt(t).Some?
    ensures [INTEGER] + t == Encode(ParseInt(t).value.val) + ParseInt(t).value.rest
  {
    hide IntegerOk;
    hide IntegerValue;
    hide EncodeInt;
    var end := Find(t, END);
    var numeral := t[..end];
    NumeralUnique(numeral);
    Wrapped(INTEGER, numeral, t, t[end + 1..]);
  }

  lemma Wrapped(open: Code, body: Bytes, tail: Bytes, rest: Bytes)
    requires tail == body + [END] + rest
    ensures [open] + tail == ([open] + body + [END]) + rest
  {
  }

  lemma Joined(a: Bytes, b: Bytes, rest: Bytes)
    ensures a + (b + [END] + rest) == (a + b) + [END] + rest
  {
  }

  lemma {:induction false} ParseSound(t: Bytes, depth: nat)
    requires Parse(t, depth).Some?
    ensures t == Encode(Parse(t, depth).value.val) + Parse(t, depth).value.rest
    ensures DepthOk(Parse(t, depth).value.val, depth)
    decreases |t|, 1
  {
    hide EncodeString;
    hide ParseString;
    assert t == [t[0]] + t[1..];
    if t[0] == INTEGER {
      IntSound(t[1..]);
    } else if t[0] == LIST {
      ItemsSound(t[1..], depth, []);
      var r := ParseItems(t[1..], depth, []).value;
      assert r.val[0..] == r.val;
      Wrapped(LIST, EncodeItems(r.val), t[1..], r.rest);
    } else if t[0] == DICT {
      EntriesSound(t[1..], depth, []);
      var r := ParseEntries(t[1..], depth, []).value;
      assert r.val[0..] == r.val;
      Wrapped(DICT, EncodeEntries(r.val), t[1..], r.rest);
    } else {
      StringSound(t);
    }
  }

  lemma {:induction false} ItemsSound(t: Bytes, depth: nat, acc: seq<BValue>)
    requires ParseItems(t, depth, acc).Some?
    ensures var r := ParseItems(t, depth, acc).value;
      && acc <= r.val && t == EncodeItems(r.val[|acc|..]) + [END] + r.rest
      && forall i :: |acc| <= i < |r.val| ==> DepthOk(r.val[i], depth + 1)
    decreases |t|, 2
  {
    hide Encode;
    hide Parse;
    var r := ParseItems(t, depth, acc).value;
    if t[0] == END {
      assert r.val[|acc|..] == [];
      assert t == [END] + t[1..];
    } else {
      ParseSound(t, depth + 1);
      var v := Parse(t, depth + 1).value;
      ItemsSound(v.rest, depth, acc + [v.val]);
      assert r.val[|acc|] == v.val && r.val[|acc|..][1..] == r.val[|acc| + 1..];
      Joined(Encode(v.val), EncodeItems(r.val[|acc| + 1..]), r.rest);
    }
  }

  lemma {:induction false} EntrySound(t: Bytes, depth: nat)
    requires ParseEntry(t, depth).Some?
    ensures var e := ParseEntry(t, depth).value; t == EncodeEntry(e.val) + e.rest && DepthOk(e.val.val, depth + 1)
    decreases |t|, 2
  {
    hide Parse;
    hide ParseString;
    StringSound(t);
    ParseSound(ParseString(t).value.rest, depth + 1);
  }

  lemma {:induction false} EntriesSound(t: Bytes, depth: nat, acc: seq<Entry<BValue>>)
    requires ParseEntries(t, depth, acc).Some?
    ensures var r := ParseEntries(t, depth, acc).value;
      && acc <= r.val && t == EncodeEntries(r.val[|acc|..]) + [END] + r.rest
      && forall i :: |acc| <= i < |r.val| ==> DepthOk(r.val[i].val, depth + 1)
    decreases |t|, 3
  {
    hide EncodeEntry;
    hide ParseEntry;
    var r := ParseEntries(t, depth, acc).value;
    if t[0] == END {
      assert r.val[|acc|..] == [];
      assert t == [END] + t[1..];
    } else {
      EntrySound(t, depth);
      var e := ParseEntry(t, depth).value;
      EntriesSound(e.rest, depth, acc + [e.val]);
      assert r.val[|acc|] == e.val && r.val[|acc|..][1..] == r.val[|acc| + 1..];
      Joined(EncodeEntry(e.val), EncodeEntries(r.val[|acc| + 1..]), r.rest);
    }
  }

  // ----- Every encoding is read, up to its end and no further -----

  lemma {:induction false} FindAt(d: Bytes, b: Code, rest: Bytes)
    requires forall i :: 0 <= i < |d| ==> d[i] != b
    ensures Find(d + [b] + rest, b) == |d|
  {
    var t := d + [b] + rest;
    assert forall i :: 0 <= i < |d| ==> t[i] == d[i];
    assert t[|d|] == b;
  }

  lemma StringComplete(s: Bytes, rest: Bytes)
    ensures ParseString(EncodeString(s) + rest) == Some(Parsed(s, rest))
    ensures 48 <= EncodeString(s)[0] <= 57
  {
    DigitsRead(|s|);
    var d: Bytes := Digits(|s|);
    var t := EncodeString(s) + rest;
    assert t == d + [COLON] + (s + rest);
    FindAt(d, COLON, s + rest);
    assert t[..|d|] == d;
    assert t[|d| + 1..] == s + rest;
    assert t[|d| + 1..|d| + 1 + |s|] == s && t[|d| + 1 + |s|..] == rest;
  }

  lemma NumeralRead(n: int)
    ensures IntegerOk(EncodeInt(n)) && IntegerValue(EncodeInt(n)) == n
    ensures forall i :: 0 <= i < |EncodeInt(n)| ==> EncodeInt(n)[i] != END
  {
    hide Digits;
    var m: nat := if n < 0 then -n else n;
    DigitsRead(m);
    assert 48 <= Digits(m)[0] <= 57;
    if n < 0 { assert EncodeInt(n)[1..] == Digits(m) && EncodeInt(n)[1] != 48; }
  }

  lemma IntComplete(n: int, rest: Bytes)
    ensures ParseInt(EncodeInt(n) + [END] + rest) == Some(Parsed(BInt(n), rest))
  {
    hide IntegerOk;
    hide IntegerValue;
    hide EncodeInt;
    var numeral := EncodeInt(n);
    var t := numeral + [END] + rest;
    NumeralRead(n);
    FindAt(numeral, END, rest);
    assert t[..|numeral|] == numeral && t[|numeral| + 1..] == rest;
  }

  lemma {:induction false} EncodeStarts(v: BValue)
    ensures Encode(v) != [] && Encode(v)[0] != END
  {
    match v
    case BBytes(s) => StringComplete(s, []);
    case _ =>
  }

  lemma {:induction false} ParseComplete(v: BValue, depth: nat, rest: Bytes)
    requires DepthOk(v, depth)
    ensures Parse(Encode(v) + rest, depth) == Some(Parsed(v, rest))
    decreases v, 1
  {
    hide EncodeString;
    hide ParseString;
    var t := Encode(v) + rest;
    match v
    case BInt(n) =>
      IntComplete(n, rest);
      assert t[1..] == EncodeInt(n) + [END] + rest;
    case BBytes(s) =>
      StringComplete(s, rest);
      assert t[0] == EncodeString(s)[0];
    case BList(items) =>
      Wrapped(LIST, EncodeItems(items), EncodeItems(items) + [END] + rest, rest);
      ItemsComplete(items, depth, rest, []);
      assert t[1..] == EncodeItems(items) + [END] + rest && [] + items == items;
    case BDict(entries) =>
      Wrapped(DICT, EncodeEntries(entries), EncodeEntries(entries) + [END] + rest, rest);
      EntriesComplete(entries, depth, rest, []);
      assert t[1..] == EncodeEntries(entries) + [END] + rest && [] + entries == entries;
  }

  lemma {:induction false} ItemsComplete(items: seq<BValue>, depth: nat, rest: Bytes, acc: seq<BValue>)
    requires forall i :: 0 <= i < |items| ==> DepthOk(items[i], depth + 1)
    ensures ParseItems(EncodeItems(items) + [END] + rest, depth, acc) == Some(Parsed(acc + items, rest))
    decreases items, 0
  {
    hide Parse;
    hide Encode;
    var t := EncodeItems(items) + [END] + rest;
    if items == [] {
      assert t == [END] + rest && acc + items == acc;
    } else {
      var tail := EncodeItems(items[1..]) + [END] + rest;
      Joined(Encode(items[0]), EncodeItems(items[1..]), rest);
      EncodeStarts(items[0]);
      ParseComplete(items[0], depth + 1, tail);
      ItemsComplete(items[1..], depth, rest, acc + [items[0]]);
      assert t[0] == Encode(items[0])[0];
      assert acc + [items[0]] + items[1..] == acc + items;
    }
  }

  lemma {:induction false} EntryComplete(e: Entry<BValue>, depth: nat, rest: Bytes)
    requires DepthOk(e.val, depth + 1)
    ensures ParseEntry(EncodeEntry(e) + rest, depth) == Some(Parsed(e, rest))
    ensures EncodeEntry(e) != [] && EncodeEntry(e)[0] != END
    decreases e, 2
  {
    hide Parse;
    hide Encode;
    hide EncodeString;
    hide ParseString;
    assert EncodeEntry(e) + rest == EncodeString(e.key) + (Encode(e.val) + rest);
    StringComplete(e.key, Encode(e.val) + rest);
    ParseComplete(e.val, depth + 1, rest);
  }

  lemma {:induction false} EntriesComplete(entries: seq<Entry<BValue>>, depth: nat, rest: Bytes,
          acc: seq<Entry<BValue>>)
    requires forall i :: 0 <= i < |entries| ==> DepthOk(entries[i].val, depth + 1)
    ensures ParseEntries(EncodeEntries(entries) + [END] + rest, depth, acc) == Some(Parsed(acc + entries, rest))
    decreases entries, 3
  {
    hide ParseEntry;
    hide EncodeEntry;
    var t := EncodeEntries(entries) + [END] + rest;
    if entries == [] {
      assert t == [END] + rest && acc + entries == acc;
    } else {
      var tail := EncodeEntries(entries[1..]) + [END] + rest;
      Joined(EncodeEntry(entries[0]), EncodeEntries(entries[1..]), rest);
      EntryComplete(entries[0], depth, tail);
      EntriesComplete(entries[1..], depth, rest, acc + [entries[0]]);
      assert t[0] == EncodeEntry(entries[0])[0];
      assert acc + [entries[0]] + entries[1..] == acc + entries;
    }
  }

  /** Encodings are prefix-free: where one starts, no other value's can start too. */
  lemma PrefixFree(v: BValue, w: BValue, depth: nat, restV: Bytes, restW: Bytes)
    requires DepthOk(v, depth) && DepthOk(w, depth)
    requires Encode(v) + restV == Encode(w) + restW
    ensures v == w && restV == restW
  {
    ParseComplete(v, depth, restV);
    ParseComplete(w, depth, restW);
  }

  // ----- The skipper -----

  method SkipString(data: Bytes, offset: nat) returns (r: Option<(Bytes, nat)>)
    requires offset <= |data|
    ensures r.None? <==> ParseString(data[offset..]).None?
    ensures r.Some? ==>
      && offset < r.value.1 <= |data|
      && ParseString(data[offset..]) == Some(Parsed(r.value.0, data[r.value.1..]))
  {
    var colon := offset + Find(data[offset..], COLON);
    if colon == |data| {
      return None;
    }
    var lengthBytes := data[offset..colon];
    assert lengthBytes == data[offset..][..colon - offset];
    if !Canonical(lengthBytes) {
      return None;
    }
    var length := DigitsValue(lengthBytes);
    var start := colon + 1;
    var end := start + length;
    if end > |data| {
      return None;
    }
    assert data[start..end] == data[offset..][start - offset..end - offset];
    return Some((data[start..end], end));
  }

  /** The rest of an integer, behind its marker. */
  method SkipInteger(data: Bytes, offset: nat) returns (r: Option<nat>)
    requires offset <= |data|
    ensures r.None? <==> ParseInt(data[offset..]).None?
    ensures r.Some? ==> offset < r.value <= |data| && data[r.value..] == ParseInt(data[offset..]).value.rest
  {
    var end := offset + Find(data[offset..], END);
    if end == |data| || end == offset {
      return None;
    }
    var numeral := data[offset..end];
    assert numeral == data[offset..][..end - offset];
    var digits := if numeral[0] == MINUS then numeral[1..] else numeral;
    if !Canonical(digits) || numeral == [MINUS, 48] {
      return None;
    }
    return Some(end + 1);
  }

  /** The offset behind one value: exactly where a reader of the grammar would stop. */
  method SkipValue(data: Bytes, offset: nat, depth: nat) returns (r: Option<nat>)
    requires offset <= |data|
    ensures r.None? <==> Parse(data[offset..], depth).None?
    ensures r.Some? ==> offset < r.value <= |data| && data[r.value..] == Parse(data[offset..], depth).value.rest
    decreases |data| - offset
  {
    hide ParseInt;
    hide ParseString;
    ghost var t := data[offset..];
    if depth > MAX_DEPTH || offset >= |data| {
      return None;
    }
    var marker := data[offset];
    if marker == INTEGER {
      r := SkipInteger(data, offset + 1);
      return;
    }
    if marker == LIST || marker == DICT {
      var cursor, isDict := offset + 1, marker == DICT;
      ghost var items: seq<BValue>, entries: seq<Entry<BValue>> := [], [];
      while cursor < |data| && data[cursor] != END
        invariant offset < cursor <= |data|
        invariant !isDict ==> ParseItems(t[1..], depth, []) == ParseItems(data[cursor..], depth, items)
        invariant isDict ==> ParseEntries(t[1..], depth, []) == ParseEntries(data[cursor..], depth, entries)
        decreases |data| - cursor
      {
        ghost var here := data[cursor..];
        if isDict {
          var key := SkipString(data, cursor);
          if key.None? {
            return None;
          }
          cursor := key.value.1;
        }
        var next := SkipValue(data, cursor, depth + 1);
        if next.None? {
          return None;
        }
        cursor := next.value;
        if isDict {
          entries := entries + [ParseEntry(here, depth).value.val];
        } else {
          items := items + [Parse(here, depth + 1).value.val];
        }
      }
      if cursor >= |data| {
        return None;
      }
      return Some(cursor + 1);
    }
    if 48 <= marker <= 57 {
      var s := SkipString(data, offset);
      return if s.None? then None else Some(s.value.1);
    }
    return None;
  }

  /** The skipper stops at p exactly when the bytes up to p encode one value. */
  lemma SkipMeaning(data: Bytes, offset: nat, depth: nat, p: nat)
    requires offset <= p <= |data|
    ensures (Parse(data[offset..], depth).Some? && Parse(data[offset..], depth).value.rest == data[p..])
      <==> exists v :: Encodes(data[offset..p], v, depth)
  {
    var t := data[offset..];
    assert t == data[offset..p] + data[p..];
    var parsed := Parse(t, depth);
    if parsed.Some? && parsed.value.rest == data[p..] {
      ParseSound(t, depth);
      var v := parsed.value.val;
      assert |Encode(v)| == p - offset;
      assert data[offset..p] == t[..p - offset] == Encode(v);
      assert Encodes(data[offset..p], v, depth);
    }
    if v :| Encodes(data[offset..p], v, depth) {
      ParseComplete(v, depth, data[p..]);
    }
  }

  /** BEP 3 also requires the keys of every dictionary to be sorted. */
  predicate SortedKeys(v: BValue)
    decreases v
  {
    match v
    case BList(items) => forall i :: 0 <= i < |items| ==> SortedKeys(items[i])
    case BDict(entries) => Sorted(entries) && forall i :: 0 <= i < |entries| ==> SortedKeys(entries[i].val)
    case _ => true
  }

  /** The skipper accepts this dictionary, whose keys are not sorted. */
  lemma UnsortedAccepted()
    ensures exists v :: !SortedKeys(v) && DepthOk(v, 0) && Parse(Encode(v), 0) == Some(Parsed(v, []))
  {
    var v := BDict([Entry([98], BInt(0)), Entry([97], BInt(0))]);
    assert !Less(v.entries[0].key, v.entries[1].key);
    ParseComplete(v, 0, []);
    assert Encode(v) + [] == Encode(v);
  }

  /** What it accepts is a BEP 3 encoding exactly when the keys of the value read are sorted. */
  lemma StrictMeaning(data: Bytes, offset: nat, depth: nat, p: nat)
    requires offset <= p <= |data|
    requires Parse(data[offset..], depth).Some? && Parse(data[offset..], depth).value.rest == data[p..]
    ensures (exists v :: Encodes(data[offset..p], v, depth) && SortedKeys(v))
      <==> SortedKeys(Parse(data[offset..], depth).value.val)
  {
    SkipMeaning(data, offset, depth, p);
    assert data[offset..] == data[offset..p] + data[p..];
    forall v | Encodes(data[offset..p], v, depth) ensures v == Parse(data[offset..], depth).value.val {
      ParseComplete(v, depth, data[p..]);
    }
  }
}

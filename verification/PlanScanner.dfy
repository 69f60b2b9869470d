/** The preflight scanner of the recovery planner: it walks JSON text without building
    values and predicts the size of the canonical text of the value, and how much longer
    that text gets when it is embedded in another document. */
module PlanScanner {
  import opened Text
  import opened JsonValue
  import opened JsonDecode
  import opened JsonSums
  import JsonFacts
  import JsonReading
  import JsonRoundTrip
  import opened JsonGrammar

  /** The sizes recorded for one object member: canonical size and embedding overhead. */
  datatype Metrics = Metrics(plain: nat, escapes: nat)

  datatype ScannedString = ScannedString(metrics: Metrics, name: Option<Text>)

  function MetricsOf(v: Value): Metrics { Metrics(Size(v), Overhead(v)) }

  /** The size that is held against the limit. */
  function Charge(m: Metrics, quoted: bool): nat {
    m.plain + if quoted then m.escapes + 2 else 0
  }

  /** The per-member record after a top-level object has been scanned. */
  function Record(base: map<Text, Metrics>, members: seq<Entry<Value>>): map<Text, Metrics> {
    if members == [] then base
    else Record(base, members[..|members| - 1])[members[|members| - 1].key := MetricsOf(members[|members| - 1].val)]
  }

  /** Only the members of a top-level object are recorded. */
  function RecordAt(depth: nat, base: map<Text, Metrics>, v: JsonValue.Value): map<Text, Metrics> {
    if depth == 0 && v.Dict? then Record(base, v.members) else base
  }

  /** Exactly the texts `Scan` accepts. */
  ghost predicate Accepts(text: Text, limit: int, quoted: bool) {
    && |text| <= DOCUMENT_BYTES
    && Decode(text).Some?
    && InDomain(Decode(text).value, 0)
    && Charge(MetricsOf(Decode(text).value), quoted) <= limit
  }

  /** The scanner's answer `m` is right for the decoded value `d`. */
  ghost predicate Measured(d: Option<Parsed<JsonValue.Value>>, depth: nat, m: Metrics) {
    d.Some? && InDomain(d.value.val, depth) && m == MetricsOf(d.value.val)
  }

  /** There is a reason to refuse: no value, one outside the domain, or one too large. */
  ghost predicate Refusable(d: Option<Parsed<JsonValue.Value>>, depth: nat, limit: int, quoted: bool) {
    d.None? || !InDomain(d.value.val, depth) || Charge(MetricsOf(d.value.val), quoted) > limit
  }

  /** The same for an array whose first items are known. */
  ghost predicate RefusableItems(d: Option<Parsed<seq<JsonValue.Value>>>, depth: nat, limit: int, quoted: bool) {
    d.None? || !InDomain(List(d.value.val), depth) || Charge(MetricsOf(List(d.value.val)), quoted) > limit
  }

  ghost predicate RefusableMembers(d: Option<Parsed<seq<Entry<JsonValue.Value>>>>, depth: nat, limit: int,
          quoted: bool)
  {
    d.None? || !InDomain(Dict(d.value.val), depth) || Charge(MetricsOf(Dict(d.value.val)), quoted) > limit
  }

  lemma TooManyItems(t: Text, acc: seq<JsonValue.Value>, depth: nat, limit: int, quoted: bool)
    requires |acc| >= MAX_RECORDS
    ensures RefusableItems(DecodeItems(t, acc), depth, limit, quoted)
  {
    ItemsExtend(t, acc);
  }

  lemma ItemRefused(t: Text, acc: seq<JsonValue.Value>, depth: nat, limit: int, quoted: bool)
    requires Refusable(DecodeValue(t), depth + 1, limit, quoted)
    ensures RefusableItems(DecodeItems(t, acc), depth, limit, quoted)
  {
    var whole := DecodeItems(t, acc);
    if whole.Some? {
      ItemStep(t, acc);
      assert whole.value.val[|acc|] == DecodeValue(t).value.val;
    }
  }

  lemma ItemsTooLarge(t: Text, acc: seq<JsonValue.Value>, depth: nat, limit: int, quoted: bool)
    requires DecodeValue(t).Some?
    requires Charge(MetricsOf(List(acc + [DecodeValue(t).value.val])), quoted) > limit
    ensures RefusableItems(DecodeItems(t, acc), depth, limit, quoted)
  {
    if DecodeItems(t, acc).Some? { ItemStep(t, acc); }
  }

  lemma TooManyMembers(t: Text, acc: seq<Entry<JsonValue.Value>>, depth: nat, limit: int, quoted: bool)
    requires |acc| >= MAX_RECORDS
    ensures RefusableMembers(DecodeMembers(t, acc), depth, limit, quoted)
  {
    MembersExtend(t, acc);
  }

  /** A key that is too long, unclean or already present, or a value that is refused. */
  lemma MemberRefused(t: Text, acc: seq<Entry<JsonValue.Value>>, depth: nat, limit: int, quoted: bool)
    requires DecodeMember(t).Some? ==>
      var m := DecodeMember(t).value.val;
      || !Clean(m.key) || |m.key| > MAX_KEY || !DistinctKeys(acc + [m])
      || Charge(Metrics(TextSize(m.key), TextOverhead(m.key)), quoted) > limit
      || !InDomain(m.val, depth + 1) || Charge(MetricsOf(m.val), quoted) > limit
    ensures RefusableMembers(DecodeMembers(t, acc), depth, limit, quoted)
  {
    var whole := DecodeMembers(t, acc);
    if whole.Some? {
      MemberStep(t, acc);
      var m := DecodeMember(t).value.val;
      assert whole.value.val[|acc|] == m;
      assert whole.value.val[..|acc| + 1] == acc + [m];
      assert DistinctKeys(acc + [m]);
    }
  }

  lemma MembersTooLarge(t: Text, acc: seq<Entry<JsonValue.Value>>, depth: nat, limit: int, quoted: bool)
    requires DecodeMember(t).Some?
    requires Charge(MetricsOf(Dict(acc + [DecodeMember(t).value.val])), quoted) > limit
    ensures RefusableMembers(DecodeMembers(t, acc), depth, limit, quoted)
  {
    if DecodeMembers(t, acc).Some? { MemberStep(t, acc); }
  }

  /** What a literal or an integer costs, or none when it is refused. */
  function TokenMetrics(token: Text): (r: Option<Metrics>)
    ensures r.Some? ==>
      && DecodeToken(token).Some? && InDomain(DecodeToken(token).value, 0)
      && r.value == MetricsOf(DecodeToken(token).value)
    ensures r.None? && DecodeToken(token).Some? ==> !InDomain(DecodeToken(token).value, 0)
  {
    if token == Ascii("true") || token == Ascii("false") || token == Ascii("null") then Some(Metrics(|token|, 0))
    else if !IsInteger(token) then None
    else if |token| > 20 then
      LongToken(token);
      None
    else
      var value := IntegerValue(token);
      if -0x8000_0000_0000_0000 <= value < 0x8000_0000_0000_0000 then Some(Metrics(|IntText(value)|, 0)) else None
  }

  lemma TokenMeasured(token: Text, rest: Text, depth: nat, limit: int, quoted: bool)
    requires depth <= MAX_DEPTH
    ensures var v := DecodeToken(token);
      var d := if v.None? then None else Some(Parsed(v.value, rest));
      && (TokenMetrics(token).None? ==> Refusable(d, depth, limit, quoted))
      && (TokenMetrics(token).Some? ==> Measured(d, depth, TokenMetrics(token).value) && !d.value.val.Dict?)
  {
  }

  lemma StringMeasured(s: Option<Parsed<Text>>, depth: nat, limit: int, quoted: bool)
    requires depth <= MAX_DEPTH
    ensures var d := if s.None? then None else Some(Parsed(Str(s.value.val), s.value.rest));
      if s.Some? && Clean(s.value.val)
         && Charge(Metrics(TextSize(s.value.val), TextOverhead(s.value.val)), quoted) <= limit
      then Measured(d, depth, Metrics(TextSize(s.value.val), TextOverhead(s.value.val)))
      else Refusable(d, depth, limit, quoted)
  {
  }

  /** Containers are refused at the deepest level, not only when they hold something. */
  lemma TooDeep(t: Text, depth: nat)
    requires depth >= MAX_DEPTH
    ensures DecodeArray(t).Some? ==> !InDomain(DecodeArray(t).value.val, depth)
    ensures DecodeObject(t).Some? ==> !InDomain(DecodeObject(t).value.val, depth)
  {
  }

  lemma NoneTooDeep(t: Text, depth: nat)
    requires depth > MAX_DEPTH
    ensures DecodeValue(t).Some? ==> !InDomain(DecodeValue(t).value.val, depth)
  {
  }

  lemma DictAppend(acc: seq<Entry<JsonValue.Value>>, m: Entry<JsonValue.Value>)
    ensures MetricsOf(Dict(acc + [m])) == Metrics(
      Size(Dict(acc)) + TextSize(m.key) + 1 + Size(m.val) + (if |acc| > 0 then 1 else 0),
      Overhead(Dict(acc)) + TextOverhead(m.key) + Overhead(m.val))
  {
    MemberAppend(acc, m);
  }

  /** `keys` are the keys of the members read so far. */
  ghost predicate KeysOf(acc: seq<Entry<JsonValue.Value>>, keys: set<Text>) {
    forall k :: k in keys <==> exists i :: 0 <= i < |acc| && acc[i].key == k
  }

  lemma KeyRepeats(acc: seq<Entry<JsonValue.Value>>, keys: set<Text>, m: Entry<JsonValue.Value>)
    requires DistinctKeys(acc)
    requires KeysOf(acc, keys)
    ensures m.key in keys <==> !DistinctKeys(acc + [m])
  {
    if m.key in keys {
      var i :| 0 <= i < |acc| && acc[i].key == m.key;
      assert (acc + [m])[i].key == (acc + [m])[|acc|].key;
    }
  }

  /** The number read so far, digit by digit. */
  function HexPrefix(t: Text, n: nat): nat
    requires n <= |t| && forall k :: 0 <= k < n ==> HexValue(t[k]).Some?
  {
    if n == 0 then 0 else 16 * HexPrefix(t, n - 1) + HexValue(t[n - 1]).value
  }

  lemma HexFour(t: Text)
    requires |t| >= 4 && forall k :: 0 <= k < 4 ==> HexValue(t[k]).Some?
    ensures Hex4(t) == Some(HexPrefix(t, 4))
  {
    assert HexPrefix(t, 1) == HexValue(t[0]).value;
    assert HexPrefix(t, 2) == 16 * HexValue(t[0]).value + HexValue(t[1]).value;
  }

  class Scanner {
    const text: Text
    const limit: int
    var offset: nat
    var quoted: bool
    var members: map<Text, Metrics>

    constructor (text: Text, limit: int)
      ensures this.text == text && this.limit == limit
      ensures offset == 0 && !quoted && members == map[]
    {
      this.text, this.limit := text, limit;
      offset, quoted, members := 0, false, map[];
    }

    predicate Fits(plain: nat, escapes: nat)
      reads this
    {
      Charge(Metrics(plain, escapes), quoted) <= limit
    }

    method Whitespace()
      requires offset <= |text|
      modifies this`offset
      ensures old(offset) <= offset <= |text|
      ensures text[offset..] == SkipSpace(text[old(offset)..])
    {
      while offset < |text| && Space(text[offset])
        invariant old(offset) <= offset <= |text|
        invariant SkipSpace(text[offset..]) == SkipSpace(text[old(offset)..])
      {
        offset := offset + 1;
      }
    }

    method Take(expected: Code) returns (ok: bool)
      requires offset <= |text|
      modifies this`offset
      ensures old(offset) <= offset <= |text|
      ensures ok <==> At(SkipSpace(text[old(offset)..]), expected)
      ensures ok ==> offset > old(offset) && text[offset..] == SkipSpace(text[old(offset)..])[1..]
    {
      Whitespace();
      if offset >= |text| || text[offset] != expected {
        return false;
      }
      offset := offset + 1;
      return true;
    }

    /** Four hexadecimal digits. On refusal the offset may lie behind the text. */
    method UnicodeEscape() returns (r: Option<nat>)
      requires offset <= |text|
      modifies this`offset
      ensures offset == old(offset) + 4
      ensures r == Hex4(text[old(offset)..])
    {
      var start := offset;
      offset := offset + 4;
      if offset > |text| {
        return None;
      }
      ghost var t := text[start..];
      var code := 0;
      for i := 0 to 4
        invariant forall k :: 0 <= k < i ==> HexValue(t[k]).Some?
        invariant code == HexPrefix(t, i)
      {
        var digit := HexValue(text[start + i]);
        if digit.None? {
          return None;
        }
        code := 16 * code + digit.value;
      }
      HexFour(t);
      return Some(code);
    }

    /** The character an escape stands for. A surrogate that is not the first half of a
        pair is refused, where the reader would keep it. */
    method EscapedCharacter() returns (r: Option<Code>)
      requires offset <= |text|
      modifies this`offset
      ensures r.Some? ==>
        && old(offset) < offset <= |text| && !Surrogate(r.value)
        && DecodeEscape(text[old(offset)..]) == Some(Parsed(r.value, text[offset..]))
      ensures r.None? ==>
        var e := DecodeEscape(text[old(offset)..]); e.None? || Surrogate(e.value.val)
    {
      ghost var t := text[offset..];
      if offset >= |text| {
        return None;
      }
      var token := text[offset];
      offset := offset + 1;
      if token == 'u' as int {
        var u := UnicodeEscape();
        if u.None? {
          return None;
        }
        var code := u.value;
        assert text[offset..] == t[5..];
        if High(code) {
          if offset + 2 > |text| || text[offset] != BACKSLASH || text[offset + 1] != 'u' as int {
            return None;
          }
          offset := offset + 2;
          var low := UnicodeEscape();
          if low.None? || !Low(low.value) {
            return None;
          }
          assert t[11..] == text[offset..];
          return Some(0x10000 + (code - 0xD800) * 1024 + (low.value - 0xDC00));
        } else if Low(code) {
          return None;
        }
        return Some(code);
      }
      return Unescaped(token);
    }

    /** The next character of a string, refusing NUL and surrogates. */
    method Character() returns (r: Option<Code>)
      requires offset < |text| && text[offset] != QUOTE
      modifies this`offset
      ensures r.Some? ==>
        && old(offset) < offset <= |text| && CleanChar(r.value)
        && DecodeChar(text[old(offset)..]) == Some(Parsed(r.value, text[offset..]))
      ensures r.None? ==>
        var c := DecodeChar(text[old(offset)..]); c.None? || !CleanChar(c.value.val)
    {
      var character := text[offset];
      offset := offset + 1;
      if character == BACKSLASH {
        var c := EscapedCharacter();
        if c.None? {
          return None;
        }
        character := c.value;
      } else if character < 32 {
        return None;
      }
      if character == 0 || Surrogate(character) {
        return None;
      }
      return Some(character);
    }

    /** A string, with its decoded name when it is a key. */
    method String(key: bool) returns (r: Option<ScannedString>)
      requires offset <= |text|
      modifies this`offset
      ensures r.Some? <==>
        var d := DecodeString(text[old(offset)..]);
        && d.Some? && Clean(d.value.val) && Fits(TextSize(d.value.val), TextOverhead(d.value.val))
        && (key ==> |d.value.val| <= MAX_KEY)
      ensures r.Some? ==>
        var d := DecodeString(text[old(offset)..]);
        && old(offset) < offset <= |text| && text[offset..] == d.value.rest
        && r.value.metrics == Metrics(TextSize(d.value.val), TextOverhead(d.value.val))
        && r.value.name == if key then Some(d.value.val) else None
    {
      var ok := Take(QUOTE);
      if !ok {
        return None;
      }
      var plain, escapes, name: Text := 2, 2, [];
      ghost var acc: Text := [];
      ghost var whole := DecodeChars(text[offset..], []);
      while offset < |text|
        invariant old(offset) < offset <= |text|
        invariant DecodeChars(text[offset..], acc) == whole
        invariant Clean(acc) && plain == TextSize(acc) && escapes == TextOverhead(acc)
        invariant key ==> name == acc && |acc| <= MAX_KEY
        decreases |text| - offset
      {
        if text[offset] == QUOTE {
          offset := offset + 1;
          if !Fits(plain, escapes) {
            return None;
          }
          return Some(ScannedString(Metrics(plain, escapes), if key then Some(name) else None));
        }
        ghost var here := text[offset..];
        var c := Character();
        if c.None? {
          CharRefused(here, acc);
          return None;
        }
        CharStep(here, acc);
        plain, escapes := plain + CharSize(c.value), escapes + CharOverhead(c.value);
        if !Fits(plain, escapes) {
          return None;
        }
        if key {
          if |name| >= MAX_KEY {
            return None;
          }
          name := name + [c.value];
        }
        acc := acc + [c.value];
      }
      return None;
    }

    /** One value. The limit is only charged where strings end and containers grow, so a
        value may be accepted here although it exceeds the limit; one that fits is never
        refused for it. */
    method Value(depth: nat) returns (r: Option<Metrics>)
      requires offset <= |text|
      modifies this`offset, this`members
      ensures r.Some? ==>
        && Measured(DecodeValue(text[old(offset)..]), depth, r.value)
        && old(offset) < offset <= |text| && text[offset..] == DecodeValue(text[old(offset)..]).value.rest
        && members == RecordAt(depth, old(members), DecodeValue(text[old(offset)..]).value.val)
      ensures r.None? ==> Refusable(DecodeValue(text[old(offset)..]), depth, limit, quoted)
      decreases |text| - offset, 1
    {
      hide DecodeValue;
      hide DecodeString;
      hide DecodeArray;
      hide DecodeObject;
      hide DecodeToken;
      hide InDomain;
      hide SkipSpace;
      hide TokenLength;
      hide TokenMetrics;
      hide Size;
      hide Overhead;
      ghost var t := text[offset..];
      Whitespace();
      ValueUnfolds(t, text[offset..]);
      if offset >= |text| {
        return None;
      }
      if depth > MAX_DEPTH {
        NoneTooDeep(t, depth);
        return None;
      }
      var character := text[offset];
      if character == QUOTE {
        StringMeasured(DecodeString(text[offset..]), depth, limit, quoted);
        var s := String(false);
        return if s.None? then None else Some(s.value.metrics);
      }
      if character == LBRACKET || character == LBRACE {
        if depth >= MAX_DEPTH {
          TooDeep(text[offset..][1..], depth);
          return None;
        }
        offset := offset + 1;
        if character == LBRACKET {
          r := Array(depth);
        } else {
          r := Object(depth);
        }
        return;
      }
      ghost var here := text[offset..];
      r := Token();
      assert text[offset..] == here[TokenLength(here)..];
      TokenMeasured(here[..TokenLength(here)], text[offset..], depth, limit, quoted);
    }

    /** A literal or an integer. */
    method Token() returns (r: Option<Metrics>)
      requires offset < |text|
      modifies this`offset
      ensures offset == old(offset) + TokenLength(text[old(offset)..]) <= |text|
      ensures r == TokenMetrics(text[old(offset)..][..TokenLength(text[old(offset)..])])
    {
      ghost var t := text[offset..];
      var start := offset;
      while offset < |text| && !Delimiter(text[offset])
        invariant start <= offset <= |text|
        invariant TokenLength(t) == offset - start + TokenLength(text[offset..])
      {
        offset := offset + 1;
      }
      assert text[start..offset] == t[..TokenLength(t)];
      r := TokenMetrics(text[start..offset]);
    }

    /** The next item of an array, added to the metrics `sum` of the items before it. */
    method Item(depth: nat, ghost acc: seq<JsonValue.Value>, count: nat, sum: Metrics) returns (r: Option<Metrics>)
      requires offset <= |text| && depth < MAX_DEPTH
      requires count == |acc| && sum == MetricsOf(List(acc))
      modifies this`offset, this`members
      ensures r.Some? ==>
        && count < MAX_RECORDS
        && DecodeValue(text[old(offset)..]).Some? && InDomain(DecodeValue(text[old(offset)..]).value.val, depth + 1)
        && r.value == MetricsOf(List(acc + [DecodeValue(text[old(offset)..]).value.val]))
        && old(offset) < offset <= |text| && text[offset..] == DecodeValue(text[old(offset)..]).value.rest
        && members == old(members)
      ensures r.None? ==> RefusableItems(DecodeItems(text[old(offset)..], acc), depth, limit, quoted)
      decreases |text| - offset, 2
    {
      ghost var here := text[offset..];
      if count >= MAX_RECORDS {
        TooManyItems(here, acc, depth, limit, quoted);
        return None;
      }
      var m := Value(depth + 1);
      if m.None? {
        ItemRefused(here, acc, depth, limit, quoted);
        return None;
      }
      ItemAppend(acc, DecodeValue(here).value.val);
      var plain := sum.plain + m.value.plain + (if count > 0 then 1 else 0);
      var escapes := sum.escapes + m.value.escapes;
      if !Fits(plain, escapes) {
        ItemsTooLarge(here, acc, depth, limit, quoted);
        return None;
      }
      return Some(Metrics(plain, escapes));
    }

    /** The items of an array whose bracket has been taken. */
    method Array(depth: nat) returns (r: Option<Metrics>)
      requires offset <= |text| && depth < MAX_DEPTH
      modifies this`offset, this`members
      ensures r.Some? ==>
        && Measured(DecodeArray(text[old(offset)..]), depth, r.value)
        && !DecodeArray(text[old(offset)..]).value.val.Dict?
        && old(offset) < offset <= |text| && text[offset..] == DecodeArray(text[old(offset)..]).value.rest
        && members == old(members)
      ensures r.None? ==> Refusable(DecodeArray(text[old(offset)..]), depth, limit, quoted)
      decreases |text| - offset, 4
    {
      Whitespace();
      if offset < |text| && text[offset] == RBRACKET {
        offset := offset + 1;
        return Some(Metrics(2, 0));
      }
      r := Items(depth);
    }

    method Items(depth: nat) returns (r: Option<Metrics>)
      requires offset <= |text| && depth < MAX_DEPTH
      modifies this`offset, this`members
      ensures r.Some? ==>
        && DecodeItems(text[old(offset)..], []).Some?
        && var d := DecodeItems(text[old(offset)..], []).value;
        && InDomain(List(d.val), depth) && r.value == MetricsOf(List(d.val))
        && old(offset) < offset <= |text| && text[offset..] == d.rest
        && members == old(members)
      ensures r.None? ==> RefusableItems(DecodeItems(text[old(offset)..], []), depth, limit, quoted)
      decreases |text| - offset, 3
    {
      hide DecodeValue;
      hide DecodeItems;
      hide SkipSpace;
      hide Size;
      hide Overhead;
      var sum, count := Metrics(2, 0), 0;
      ghost var acc: seq<JsonValue.Value> := [];
      ghost var whole := DecodeItems(text[offset..], []);
      EmptyMetrics();
      while true
        invariant old(offset) <= offset <= |text|
        invariant DecodeItems(text[offset..], acc) == whole
        invariant count == |acc| <= MAX_RECORDS && sum == MetricsOf(List(acc)) && members == old(members)
        invariant forall i :: 0 <= i < |acc| ==> InDomain(acc[i], depth + 1)
        decreases |text| - offset
      {
        ghost var here := text[offset..];
        var m := Item(depth, acc, count, sum);
        if m.None? {
          return None;
        }
        Whitespace();
        ItemsContinue(here, acc, text[offset..]);
        acc := acc + [DecodeValue(here).value.val];
        sum, count := m.value, count + 1;
        if offset < |text| && text[offset] == RBRACKET {
          offset := offset + 1;
          return Some(sum);
        }
        if offset >= |text| || text[offset] != COMMA {
          return None;
        }
        offset := offset + 1;
      }
    }

    /** The next member of an object, added to the metrics `sum` of the members before it. */
    method Member(depth: nat, ghost acc: seq<Entry<JsonValue.Value>>, keys: set<Text>, count: nat, sum: Metrics)
      returns (r: Option<(Text, Metrics)>)
      requires offset <= |text| && depth < MAX_DEPTH
      requires count == |acc| && sum == MetricsOf(Dict(acc))
      requires DistinctKeys(acc) && KeysOf(acc, keys)
      modifies this`offset, this`members
      ensures r.Some? ==>
        && count < MAX_RECORDS
        && DecodeMember(text[old(offset)..]).Some?
        && var m := DecodeMember(text[old(offset)..]).value.val;
        && Clean(m.key) && |m.key| <= MAX_KEY && DistinctKeys(acc + [m]) && InDomain(m.val, depth + 1)
        && r.value == (m.key, MetricsOf(Dict(acc + [m])))
        && old(offset) < offset <= |text| && text[offset..] == DecodeMember(text[old(offset)..]).value.rest
        && members == if depth == 0 then old(members)[m.key := MetricsOf(m.val)] else old(members)
      ensures r.None? ==> RefusableMembers(DecodeMembers(text[old(offset)..], acc), depth, limit, quoted)
      decreases |text| - offset, 2
    {
      hide DecodeMembers;
      hide DecodeValue;
      hide DecodeString;
      hide SkipSpace;
      hide InDomain;
      hide DistinctKeys;
      hide KeysOf;
      hide TextSize;
      hide TextOverhead;
      hide Size;
      hide Overhead;
      hide Clean;
      ghost var here := text[offset..];
      if count >= MAX_RECORDS {
        TooManyMembers(here, acc, depth, limit, quoted);
        return None;
      }
      var s := String(true);
      if s.None? {
        MemberRefused(here, acc, depth, limit, quoted);
        return None;
      }
      var name := s.value.name.value;
      if DecodeMember(here).Some? { KeyRepeats(acc, keys, DecodeMember(here).value.val); }
      if name in keys {
        MemberRefused(here, acc, depth, limit, quoted);
        return None;
      }
      var ok := Take(COLON);
      if !ok {
        MemberRefused(here, acc, depth, limit, quoted);
        return None;
      }
      var m := Value(depth + 1);
      if m.None? {
        MemberRefused(here, acc, depth, limit, quoted);
        return None;
      }
      DictAppend(acc, DecodeMember(here).value.val);
      var plain := sum.plain + s.value.metrics.plain + 1 + m.value.plain + (if count > 0 then 1 else 0);
      var escapes := sum.escapes + s.value.metrics.escapes + m.value.escapes;
      if depth == 0 {
        members := members[name := m.value];
      }
      if !Fits(plain, escapes) {
        MembersTooLarge(here, acc, depth, limit, quoted);
        return None;
      }
      return Some((name, Metrics(plain, escapes)));
    }

    /** The members of an object whose brace has been taken. */
    method Object(depth: nat) returns (r: Option<Metrics>)
      requires offset <= |text| && depth < MAX_DEPTH
      modifies this`offset, this`members
      ensures r.Some? ==>
        && Measured(DecodeObject(text[old(offset)..]), depth, r.value)
        && old(offset) < offset <= |text| && text[offset..] == DecodeObject(text[old(offset)..]).value.rest
        && members == RecordAt(depth, old(members), DecodeObject(text[old(offset)..]).value.val)
      ensures r.None? ==> Refusable(DecodeObject(text[old(offset)..]), depth, limit, quoted)
      decreases |text| - offset, 4
    {
      Whitespace();
      if offset < |text| && text[offset] == RBRACE {
        offset := offset + 1;
        return Some(Metrics(2, 0));
      }
      r := Members(depth);
    }

    method Members(depth: nat) returns (r: Option<Metrics>)
      requires offset <= |text| && depth < MAX_DEPTH
      modifies this`offset, this`members
      ensures r.Some? ==>
        && DecodeMembers(text[old(offset)..], []).Some?
        && var d := DecodeMembers(text[old(offset)..], []).value;
        && InDomain(Dict(d.val), depth) && r.value == MetricsOf(Dict(d.val))
        && old(offset) < offset <= |text| && text[offset..] == d.rest
        && members == RecordAt(depth, old(members), Dict(d.val))
      ensures r.None? ==> RefusableMembers(DecodeMembers(text[old(offset)..], []), depth, limit, quoted)
      decreases |text| - offset, 3
    {
      hide DecodeMember;
      hide DecodeMembers;
      hide KeysOf;
      hide SkipSpace;
      hide Size;
      hide Overhead;
      var keys: set<Text>, sum, count := {}, Metrics(2, 0), 0;
      ghost var acc: seq<Entry<JsonValue.Value>> := [];
      ghost var whole := DecodeMembers(text[offset..], []);
      EmptyMetrics();
      while true
        invariant old(offset) <= offset <= |text|
        invariant DecodeMembers(text[offset..], acc) == whole
        invariant count == |acc| <= MAX_RECORDS && sum == MetricsOf(Dict(acc))
        invariant DistinctKeys(acc) && KeysOf(acc, keys)
        invariant members == RecordAt(depth, old(members), Dict(acc))
        invariant forall i :: 0 <= i < |acc| ==>
          Clean(acc[i].key) && |acc[i].key| <= MAX_KEY && InDomain(acc[i].val, depth + 1)
        decreases |text| - offset
      {
        ghost var here := text[offset..];
        var m := Member(depth, acc, keys, count, sum);
        if m.None? {
          return None;
        }
        Whitespace();
        MembersContinue(here, acc, text[offset..]);
        KeysAppend(acc, keys, DecodeMember(here).value.val);
        RecordAppend(depth, old(members), acc, DecodeMember(here).value.val);
        acc := acc + [DecodeMember(here).value.val];
        keys, sum, count := keys + {m.value.0}, m.value.1, count + 1;
        if offset < |text| && text[offset] == RBRACE {
          offset := offset + 1;
          return Some(sum);
        }
        if offset >= |text| || text[offset] != COMMA {
          return None;
        }
        offset := offset + 1;
      }
    }

    /** The whole text. A text is accepted exactly when it has a value, the value lies in
        the scanner's domain, and its charge stays within the limit. */
    method Scan(asString: bool) returns (r: Option<Metrics>)
      requires offset == 0 && members == map[]
      modifies this
      ensures r.Some? <==> Accepts(text, limit, asString)
      ensures r.Some? ==>
        && r.value == MetricsOf(Decode(text).value)
        && members == RecordAt(0, map[], Decode(text).value)
    {
      quoted := asString;
      if |text| > DOCUMENT_BYTES {
        return None;
      }
      assert text[0..] == text;
      var m := Value(0);
      if m.None? {
        return None;
      }
      Whitespace();
      if offset != |text| || !Fits(m.value.plain, m.value.escapes) {
        return None;
      }
      return m;
    }
  }

  lemma EmptyMetrics()
    ensures MetricsOf(List([])) == Metrics(2, 0) && MetricsOf(Dict([])) == Metrics(2, 0)
    ensures KeysOf([], {})
  {
  }

  lemma RecordAppend(depth: nat, base: map<Text, Metrics>, acc: seq<Entry<JsonValue.Value>>, m: Entry<JsonValue.Value>)
    ensures RecordAt(depth, base, Dict(acc + [m])) ==
      if depth == 0 then RecordAt(depth, base, Dict(acc))[m.key := MetricsOf(m.val)]
      else RecordAt(depth, base, Dict(acc))
  {
    assert (acc + [m])[..|acc|] == acc;
  }

  lemma KeysAppend(acc: seq<Entry<JsonValue.Value>>, keys: set<Text>, m: Entry<JsonValue.Value>)
    requires KeysOf(acc, keys)
    ensures KeysOf(acc + [m], keys + {m.key})
  {
    forall k ensures k in keys + {m.key} <==> exists i :: 0 <= i < |acc + [m]| && (acc + [m])[i].key == k {
      if k in keys {
        var i :| 0 <= i < |acc| && acc[i].key == k;
        assert (acc + [m])[i].key == k;
      }
      if k == m.key { assert (acc + [m])[|acc|].key == k; }
    }
  }

  /** What `Scan` answers is the length of the canonical text of the decoded value, and
      what that text adds when it is embedded again as a JSON string. */
  lemma ScanPredicts(text: Text, limit: int, quoted: bool)
    requires Accepts(text, limit, quoted)
    ensures var v, m := Decode(text).value, MetricsOf(Decode(text).value);
      && m.plain == |Encode(v)|
      && m.plain + m.escapes + 2 == |Quote(Encode(v))|
      && (if quoted then |Quote(Encode(v))| else |Encode(v)|) <= limit
  {
    JsonFacts.EncodeLength(Decode(text).value);
    JsonFacts.EmbeddedLength(Decode(text).value);
  }

  /** Main theorem of the scanner, without reader or size function: accepted are exactly the texts
      of at most sixteen mebibytes that write, by the grammar of RFC 8259, a value of the domain
      whose canonical text, quoted again if so asked, is no longer than the limit. */
  lemma AcceptsExactly(text: Text, limit: int, quoted: bool)
    ensures Accepts(text, limit, quoted) <==>
      && |text| <= 16_777_216
      && exists v :: Writes(text, v) && InDomain(v, 0) && |if quoted then Quote(Encode(v)) else Encode(v)| <= limit
  {
    hide Decode;
    hide Writes;
    hide InDomain;
    hide Quote;
    hide Encode;
    forall v | InDomain(v, 0)
      ensures Decode(text) == Some(v) <==> Writes(text, v)
      ensures |if quoted then Quote(Encode(v)) else Encode(v)| == Charge(MetricsOf(v), quoted)
    {
      JsonRoundTrip.DomainInBounds(v, 0);
      JsonRoundTrip.BoundsLegible(v, 0);
      JsonReading.DecodeExactly(text, v);
      JsonFacts.EncodeLength(v);
      JsonFacts.EmbeddedLength(v);
    }
  }

  // ----- The edges of the domain -----

  /** Containers enclosing each other: a list where the shape says so, an object elsewhere. */
  function Nested(shape: seq<bool>): JsonValue.Value {
    if shape == [] then Null
    else if shape[0] then List([Nested(shape[1..])])
    else Dict([Entry([97], Nested(shape[1..]))])
  }

  /** Thirty-two containers may enclose each other, ten thousand entries share a container, and a
      key have sixty-four characters; integers are signed and of 64 bits; a text holds neither NUL
      nor half of a surrogate pair. */
  lemma DomainEdges(shape: seq<bool>, items: seq<JsonValue.Value>, m: int, key: Text)
    ensures InDomain(Nested(shape), 0) <==> |shape| <= 32
    ensures (forall i :: 0 <= i < |items| ==> items[i] == Null) ==> (InDomain(List(items), 0) <==> |items| <= 10_000)
    ensures InDomain(Int(m), 0) <==> -9_223_372_036_854_775_808 <= m <= 9_223_372_036_854_775_807
    ensures InDomain(Str(key), 0) <==> JsonFacts.Whole(key)
    ensures InDomain(Dict([Entry(key, Null)]), 0) <==> JsonFacts.Whole(key) && |key| <= 64
  {
    NestedDomain(shape, 0);
    JsonFacts.WholeIsClean(key);
    var d := Dict([Entry(key, Null)]);
    assert InDomain(d, 0) ==> Clean(d.members[0].key) && |d.members[0].key| <= 64;
  }

  /** The size functions' bounds have the same edges, but neither integers nor keys are limited. */
  lemma BoundsEdges(shape: seq<bool>, items: seq<JsonValue.Value>, m: int, key: Text)
    ensures InBounds(Nested(shape), 0) <==> |shape| <= 32
    ensures (forall i :: 0 <= i < |items| ==> items[i] == Null) ==> (InBounds(List(items), 0) <==> |items| <= 10_000)
    ensures InBounds(Int(m), 0)
    ensures InBounds(Str(key), 0) <==> JsonFacts.Whole(key)
    ensures InBounds(Dict([Entry(key, Null)]), 0) <==> JsonFacts.Whole(key)
  {
    NestedBounds(shape, 0);
    JsonFacts.WholeIsClean(key);
    var d := Dict([Entry(key, Null)]);
    assert InBounds(d, 0) ==> Clean(d.members[0].key);
  }

  lemma {:induction false} NestedDomain(shape: seq<bool>, depth: nat)
    ensures InDomain(Nested(shape), depth) <==> depth + |shape| <= 32
    decreases |shape|
  {
    if shape != [] {
      NestedDomain(shape[1..], depth + 1);
      var v := Nested(shape);
      assert InDomain(v, depth) ==>
        InDomain(if shape[0] then v.items[0] else v.members[0].val, depth + 1);
    }
  }

  lemma {:induction false} NestedBounds(shape: seq<bool>, depth: nat)
    ensures InBounds(Nested(shape), depth) <==> depth + |shape| <= 32
    decreases |shape|
  {
    if shape != [] {
      NestedBounds(shape[1..], depth + 1);
      var v := Nested(shape);
      assert InBounds(v, depth) ==>
        InBounds(if shape[0] then v.items[0] else v.members[0].val, depth + 1);
    }
  }

  /** An object with ten thousand members is within either bound and one with more is not. */
  lemma MemberCount(members: seq<Entry<JsonValue.Value>>)
    requires forall i :: 0 <= i < |members| ==>
      members[i].val == Null && JsonFacts.Whole(members[i].key) && |members[i].key| <= 64
    ensures InDomain(Dict(members), 0) <==> |members| <= 10_000
    ensures InBounds(Dict(members), 0) <==> |members| <= 10_000
  {
    forall i | 0 <= i < |members| ensures Clean(members[i].key) { JsonFacts.WholeIsClean(members[i].key); }
  }

  /** The canonical text of a value in the scanner's domain is accepted exactly when it
      fits, and it decodes back to that value. */
  lemma CanonicalAccepted(v: JsonValue.Value, limit: int, quoted: bool)
    requires WellFormed(v) && InDomain(v, 0)
    ensures Accepts(Encode(v), limit, quoted) <==> Size(v) <= DOCUMENT_BYTES && Charge(MetricsOf(v), quoted) <= limit
    ensures Decode(Encode(v)).Some? && Same(v, Decode(Encode(v)).value)
  {
    JsonRoundTrip.DomainInBounds(v, 0);
    JsonRoundTrip.CanonicalRoundTrip(v);
    JsonRoundTrip.NormInDomain(v, 0);
    JsonFacts.EncodeLength(v);
    JsonFacts.NormSums(v);
  }
}

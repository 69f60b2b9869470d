/** The decoder's own guards, which run over the raw text before any container is built,
    and why they never refuse a text the scanner has accepted. */
module JsonLoad {
  import opened Text
  import opened JsonValue
  import opened JsonDecode
  import JsonFacts
  import JsonSums
  import JsonRoundTrip
  import PlanScanner
  import WireSize

  /** Text the code is willing to read at all. */
  predicate IsText(t: Text) { t != [] && Clean(t) }

  function Utf8Size(c: Code): nat {
    if c < 0x80 then 1 else if c < 0x800 then 2 else if c < 0x1_0000 then 3 else 4
  }

  function Utf8Length(t: Text): nat {
    if t == [] then 0 else Utf8Length(t[..|t| - 1]) + Utf8Size(t[|t| - 1])
  }

  // ----- Nesting and record counts, read off the raw characters -----

  predicate Opens(c: Code) { c == LBRACKET || c == LBRACE }

  predicate Closes(c: Code) { c == RBRACKET || c == RBRACE }

  /** Outside strings; `counts` holds, for each open container, one more than its commas. */
  predicate Guards(t: Text, counts: seq<nat>)
    decreases |t|
  {
    if t == [] then true
    else if t[0] == QUOTE then GuardsString(t[1..], counts)
    else if Opens(t[0]) then |counts| < MAX_DEPTH && Guards(t[1..], counts + [1])
    else if Closes(t[0]) then counts != [] && Guards(t[1..], counts[..|counts| - 1])
    else if t[0] == COMMA && counts != [] then
      counts[|counts| - 1] < MAX_RECORDS && Guards(t[1..], counts[|counts| - 1 := counts[|counts| - 1] + 1])
    else Guards(t[1..], counts)
  }

  /** Inside a string: a backslash hides the character behind it. */
  predicate GuardsString(t: Text, counts: seq<nat>)
    decreases |t|
  {
    if t == [] then true
    else if t[0] == BACKSLASH then |t| == 1 || GuardsString(t[2..], counts)
    else if t[0] == QUOTE then Guards(t[1..], counts)
    else GuardsString(t[1..], counts)
  }

  method CheckGuards(text: Text) returns (ok: bool)
    ensures ok <==> Guards(text, [])
  {
    var containers: seq<nat>, quoted, escaped := [], false, false;
    for i := 0 to |text|
      invariant escaped ==> quoted
      invariant Guards(text, []) <==>
        if escaped then i == |text| || GuardsString(text[i + 1..], containers)
        else if quoted then GuardsString(text[i..], containers)
        else Guards(text[i..], containers)
    {
      var character := text[i];
      if quoted {
        if escaped {
          escaped := false;
        } else if character == BACKSLASH {
          escaped := true;
        } else if character == QUOTE {
          quoted := false;
        }
      } else if character == QUOTE {
        quoted := true;
      } else if Opens(character) {
        containers := containers + [1];
        if |containers| > MAX_DEPTH {
          return false;
        }
      } else if Closes(character) {
        if containers == [] {
          return false;
        }
        containers := containers[..|containers| - 1];
      } else if character == COMMA && containers != [] {
        var last := |containers| - 1;
        if containers[last] + 1 > MAX_RECORDS {
          return false;
        }
        containers := containers[last := containers[last] + 1];
      }
    }
    return true;
  }

  // ----- A decoded value leaves the guards where it found them -----

  lemma {:induction false} SpaceGuards(t: Text, counts: seq<nat>)
    ensures Guards(t, counts) == Guards(SkipSpace(t), counts)
  {
    if t != [] && Space(t[0]) { SpaceGuards(t[1..], counts); }
  }

  predicate Inert(c: Code) { c != QUOTE && !Opens(c) && !Closes(c) && c != COMMA }

  lemma {:induction false} TokenGuards(t: Text, n: nat, counts: seq<nat>)
    requires n <= |t| && forall i :: 0 <= i < n ==> Inert(t[i])
    ensures Guards(t, counts) == Guards(t[n..], counts)
  {
    if n > 0 {
      TokenGuards(t[1..], n - 1, counts);
      assert t[1..][n - 1..] == t[n..];
    }
  }

  lemma {:induction false} PlainGuards(t: Text, n: nat, counts: seq<nat>)
    requires n <= |t| && forall i :: 0 <= i < n ==> t[i] != QUOTE && t[i] != BACKSLASH
    ensures GuardsString(t, counts) == GuardsString(t[n..], counts)
  {
    if n > 0 {
      PlainGuards(t[1..], n - 1, counts);
      assert t[1..][n - 1..] == t[n..];
    }
  }

  lemma HexGuards(t: Text, counts: seq<nat>)
    requires Hex4(t).Some?
    ensures GuardsString(t, counts) == GuardsString(t[4..], counts)
  {
    forall i | 0 <= i < 4 ensures t[i] != QUOTE && t[i] != BACKSLASH { assert HexValue(t[i]).Some?; }
    PlainGuards(t, 4, counts);
  }

  lemma CharGuards(t: Text, counts: seq<nat>)
    requires !At(t, QUOTE) && DecodeChar(t).Some?
    ensures GuardsString(t, counts) == GuardsString(DecodeChar(t).value.rest, counts)
  {
    if t[0] == BACKSLASH {
      var e := t[1..];
      assert t[2..] == e[1..];
      if e[0] == 'u' as int {
        HexGuards(e[1..], counts);
        assert e[1..][4..] == e[5..];
        if High(Hex4(e[1..]).value) && LowEscape(e[5..]).Some? {
          HexGuards(e[5..][2..], counts);
          assert e[5..][2..][4..] == e[11..];
        }
      }
    }
  }

  lemma {:induction false} CharsGuards(t: Text, acc: Text, counts: seq<nat>)
    requires DecodeChars(t, acc).Some?
    ensures GuardsString(t, counts) == Guards(DecodeChars(t, acc).value.rest, counts)
    decreases |t|
  {
    if !At(t, QUOTE) {
      CharGuards(t, counts);
      var c := DecodeChar(t).value;
      CharsGuards(c.rest, acc + [c.val], counts);
    }
  }

  /** No more than thirty-two containers enclose each other, and none has more than ten thousand
      entries. */
  predicate Contained(v: Value, depth: nat)
    decreases v
  {
    match v
    case List(items) =>
      depth < 32 && |items| <= 10_000 && forall i :: 0 <= i < |items| ==> Contained(items[i], depth + 1)
    case Dict(members) =>
      depth < 32 && |members| <= 10_000 && forall i :: 0 <= i < |members| ==> Contained(members[i].val, depth + 1)
    case _ => true
  }

  lemma {:induction false} ValueGuards(t: Text, counts: seq<nat>)
    requires DecodeValue(t).Some?
    ensures Guards(t, counts) <==>
      Contained(DecodeValue(t).value.val, |counts|) && Guards(DecodeValue(t).value.rest, counts)
    decreases |t|, 1
  {
    hide Guards;
    hide DecodeItems;
    hide DecodeMembers;
    var u := SkipSpace(t);
    SpaceGuards(t, counts);
    JsonSums.ValueUnfolds(t, u);
    if u[0] == QUOTE {
      assert SkipSpace(u) == u;
      QuoteGuards(u, counts);
      CharsGuards(u[1..], [], counts);
    } else if u[0] == LBRACKET {
      ArrayGuards(u, counts);
    } else if u[0] == LBRACE {
      ObjectGuards(u, counts);
    } else {
      var n := TokenLength(u);
      forall i | 0 <= i < n ensures Inert(u[i]) { assert u[..n][i] == u[i]; }
      TokenGuards(u, n, counts);
    }
  }

  lemma QuoteGuards(t: Text, counts: seq<nat>)
    requires At(t, QUOTE)
    ensures Guards(t, counts) == GuardsString(t[1..], counts)
  {
  }

  lemma OpenGuards(t: Text, counts: seq<nat>)
    requires t != [] && Opens(t[0])
    ensures Guards(t, counts) <==> |counts| < 32 && Guards(t[1..], counts + [1])
  {
  }

  lemma CloseGuards(t: Text, counts: seq<nat>, n: nat)
    requires t != [] && Closes(t[0])
    ensures Guards(t, counts + [n]) == Guards(t[1..], counts)
  {
    assert (counts + [n])[..|counts|] == counts;
  }

  lemma CommaGuards(t: Text, counts: seq<nat>, n: nat)
    requires At(t, COMMA)
    ensures Guards(t, counts + [n]) <==> n < 10_000 && Guards(t[1..], counts + [n + 1])
  {
    hide GuardsString;
    var c := counts + [n];
    assert |c| - 1 == |counts| && c[|counts|] == n;
    assert c[|counts| := n + 1] == counts + [n + 1];
  }

  lemma {:induction false} ArrayGuards(t: Text, counts: seq<nat>)
    requires At(t, LBRACKET) && DecodeArray(t[1..]).Some?
    ensures var r := DecodeArray(t[1..]).value;
      Guards(t, counts) <==> Contained(r.val, |counts|) && Guards(r.rest, counts)
    decreases |t|, 0
  {
    hide Guards;
    hide DecodeItems;
    OpenGuards(t, counts);
    var w := SkipSpace(t[1..]);
    SpaceGuards(t[1..], counts + [1]);
    if At(w, RBRACKET) {
      CloseGuards(w, counts, 1);
    } else if |counts| < 32 {
      ItemsGuards(w, [], counts);
    }
  }

  ghost predicate ItemsContained(items: seq<Value>, from: nat, depth: nat) {
    |items| <= 10_000 && forall i :: from <= i < |items| ==> Contained(items[i], depth)
  }

  lemma {:induction false} ItemsGuards(t: Text, acc: seq<Value>, counts: seq<nat>)
    requires DecodeItems(t, acc).Some? && |acc| < 10_000
    ensures var r := DecodeItems(t, acc).value;
      Guards(t, counts + [|acc| + 1]) <==> ItemsContained(r.val, |acc|, |counts| + 1) && Guards(r.rest, counts)
    decreases |t|, 2
  {
    hide Guards;
    hide DecodeValue;
    hide Contained;
    var v := DecodeValue(t).value;
    var items := DecodeItems(t, acc).value.val;
    JsonSums.ItemStep(t, acc);
    assert items[|acc|] == v.val;
    ValueGuards(t, counts + [|acc| + 1]);
    var u := SkipSpace(v.rest);
    SpaceGuards(v.rest, counts + [|acc| + 1]);
    if At(u, RBRACKET) {
      CloseGuards(u, counts, |acc| + 1);
    } else {
      JsonSums.ItemsExtend(u[1..], acc + [v.val]);
      CommaGuards(u, counts, |acc| + 1);
      if |acc| + 1 < 10_000 { ItemsGuards(u[1..], acc + [v.val], counts); }
    }
  }

  lemma {:induction false} ObjectGuards(t: Text, counts: seq<nat>)
    requires At(t, LBRACE) && DecodeObject(t[1..]).Some?
    ensures var r := DecodeObject(t[1..]).value;
      Guards(t, counts) <==> Contained(r.val, |counts|) && Guards(r.rest, counts)
    decreases |t|, 0
  {
    hide Guards;
    hide DecodeMembers;
    OpenGuards(t, counts);
    var w := SkipSpace(t[1..]);
    SpaceGuards(t[1..], counts + [1]);
    if At(w, RBRACE) {
      CloseGuards(w, counts, 1);
    } else if |counts| < 32 {
      MembersGuards(w, [], counts);
    }
  }

  lemma {:induction false} MemberGuards(t: Text, counts: seq<nat>)
    requires DecodeMember(t).Some?
    ensures var r := DecodeMember(t).value;
      Guards(t, counts) <==> Contained(r.val.val, |counts|) && Guards(r.rest, counts)
    decreases |t|, 2
  {
    hide Guards;
    hide DecodeValue;
    hide Contained;
    var s := SkipSpace(t);
    SpaceGuards(t, counts);
    QuoteGuards(s, counts);
    CharsGuards(s[1..], [], counts);
    var k := DecodeString(t).value;
    var u := SkipSpace(k.rest);
    SpaceGuards(k.rest, counts);
    ColonGuards(u, counts);
    ValueGuards(u[1..], counts);
  }

  lemma ColonGuards(t: Text, counts: seq<nat>)
    requires At(t, COLON)
    ensures Guards(t, counts) == Guards(t[1..], counts)
  {
  }

  ghost predicate MembersContained(members: seq<Entry<Value>>, from: nat, depth: nat) {
    |members| <= 10_000 && forall i :: from <= i < |members| ==> Contained(members[i].val, depth)
  }

  lemma {:induction false} MembersGuards(t: Text, acc: seq<Entry<Value>>, counts: seq<nat>)
    requires DecodeMembers(t, acc).Some? && |acc| < 10_000
    ensures var r := DecodeMembers(t, acc).value;
      Guards(t, counts + [|acc| + 1]) <==> MembersContained(r.val, |acc|, |counts| + 1) && Guards(r.rest, counts)
    decreases |t|, 3
  {
    hide Guards;
    hide DecodeMember;
    hide DistinctKeys;
    hide Contained;
    var m := DecodeMember(t).value;
    var members := DecodeMembers(t, acc).value.val;
    JsonSums.MemberStep(t, acc);
    assert members[|acc|] == m.val;
    MemberGuards(t, counts + [|acc| + 1]);
    var u := SkipSpace(m.rest);
    SpaceGuards(m.rest, counts + [|acc| + 1]);
    if At(u, RBRACE) {
      CloseGuards(u, counts, |acc| + 1);
    } else {
      JsonSums.MembersExtend(u[1..], acc + [m.val]);
      CommaGuards(u, counts, |acc| + 1);
      if |acc| + 1 < 10_000 { MembersGuards(u[1..], acc + [m.val], counts); }
    }
  }

  /** The raw-text guards pass a text that decodes exactly when its value's containers are within
      bounds: counting brackets and commas outside strings counts containers and entries. */
  lemma GuardsExactly(t: Text)
    requires Decode(t).Some?
    ensures Guards(t, []) <==> Contained(Decode(t).value, 0)
  {
    hide Contained;
    ValueGuards(t, []);
    SpaceGuards(DecodeValue(t).value.rest, []);
  }

  lemma {:induction false} DomainContained(v: Value, depth: nat)
    requires InDomain(v, depth)
    ensures Contained(v, depth)
    decreases v
  {
    match v
    case List(items) =>
      forall i | 0 <= i < |items| ensures Contained(items[i], depth + 1) { DomainContained(items[i], depth + 1); }
    case Dict(members) =>
      forall i | 0 <= i < |members| ensures Contained(members[i].val, depth + 1) {
        DomainContained(members[i].val, depth + 1);
      }
    case _ =>
  }

  /** So they pass every text that decodes to a value in the scanner's domain. */
  lemma DomainPassesGuards(t: Text)
    requires Decode(t).Some? && InDomain(Decode(t).value, 0)
    ensures Guards(t, [])
  {
    GuardsExactly(t);
    DomainContained(Decode(t).value, 0);
  }

  // ----- The bytes of a text -----

  /** The UTF-8 sequence of a character (RFC 3629): a leading byte and, for each further six bits,
      one byte from 0x80 on. */
  function Utf8(c: Code): seq<nat> {
    if c < 0x80 then [c]
    else if c < 0x800 then [0xC0 + c / 0x40, 0x80 + c % 0x40]
    else if c < 0x1_0000 then [0xE0 + c / 0x1000, 0x80 + c / 0x40 % 0x40, 0x80 + c % 0x40]
    else [0xF0 + c / 0x4_0000, 0x80 + c / 0x1000 % 0x40, 0x80 + c / 0x40 % 0x40, 0x80 + c % 0x40]
  }

  function Utf8Text(t: Text): seq<nat> {
    if t == [] then [] else Utf8Text(t[..|t| - 1]) + Utf8(t[|t| - 1])
  }

  /** The bytes that are counted are those of the encoded text, and every one of them is a byte. */
  lemma {:induction false} Utf8Counts(t: Text)
    ensures |Utf8Text(t)| == Utf8Length(t) && forall i :: 0 <= i < |Utf8Text(t)| ==> Utf8Text(t)[i] < 0x100
  {
    if t != [] { Utf8Counts(t[..|t| - 1]); }
  }

  // ----- Decoding behind the scanner -----

  lemma {:induction false} Utf8Monotone(t: Text, i: nat)
    requires i <= |t|
    ensures Utf8Length(t[..i]) <= Utf8Length(t)
    decreases |t| - i
  {
    if i < |t| {
      assert t[..i + 1][..i] == t[..i];
      Utf8Monotone(t, i + 1);
    } else {
      assert t[..i] == t;
    }
  }

  /** The shared decoder: bounded bytes, bounded containers, then a value whose canonical
      text is bounded too. */
  method Load(text: Text) returns (r: Option<Value>)
    ensures r == if
        && text != [] && JsonFacts.Whole(text) && |Utf8Text(text)| <= 16_777_216
        && Decode(text).Some? && Contained(Decode(text).value, 0) && InBounds(Decode(text).value, 0)
        && |Encode(Decode(text).value)| <= 16_777_216
      then Decode(text) else None
  {
    hide Contained;
    hide Utf8Text;
    hide Encode;
    JsonFacts.WholeIsClean(text);
    Utf8Counts(text);
    if Decode(text).Some? {
      GuardsExactly(text);
      JsonFacts.EncodeLength(Decode(text).value);
    }
    if !IsText(text) {
      return None;
    }
    var size := 0;
    for i := 0 to |text|
      invariant size == Utf8Length(text[..i]) && size <= DOCUMENT_BYTES
    {
      assert text[..i + 1][..i] == text[..i];
      size := size + Utf8Size(text[i]);
      if size > DOCUMENT_BYTES {
        Utf8Monotone(text, i + 1);
        return None;
      }
    }
    assert text[..|text|] == text;
    var ok := CheckGuards(text);
    if !ok {
      return None;
    }
    var value := Decode(text);
    if value.None? {
      return None;
    }
    var bounded := WireSize.WireSize(value.value, DOCUMENT_BYTES, 0);
    return if bounded.None? then None else value;
  }

  /** Scan first, decode afterwards: what the scanner accepts is decoded unless its raw
      bytes exceed the bound, and nothing else is. */
  method PlanInput(text: Text) returns (r: Option<Value>)
    ensures r == if
        && text != [] && JsonFacts.Whole(text) && PlanScanner.Accepts(text, 16_777_216, false)
        && |Utf8Text(text)| <= 16_777_216
      then Decode(text) else None
  {
    JsonFacts.WholeIsClean(text);
    if !IsText(text) {
      return None;
    }
    var scanner := new PlanScanner.Scanner(text, DOCUMENT_BYTES);
    var metrics := scanner.Scan(false);
    if metrics.None? {
      return None;
    }
    DomainContained(Decode(text).value, 0);
    JsonRoundTrip.DomainInBounds(Decode(text).value, 0);
    JsonFacts.EncodeLength(Decode(text).value);
    r := Load(text);
  }
}

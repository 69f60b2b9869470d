/** The two functions that predict the length of a value's canonical text against a
    budget, and the writer that emits that text in fragments. */
module WireSize {
  import opened Text
  import opened JsonValue
  import opened JsonSums
  import JsonFacts

  const FRAGMENT := 4096

  // ----- The recovery side: refuses as soon as the budget is exceeded -----

  method WireText(s: Text, remaining: int) returns (r: Option<nat>)
    ensures r == if Clean(s) && (s == [] || TextSize(s) <= remaining) then Some(TextSize(s)) else None
  {
    var size := 2;
    for i := 0 to |s|
      invariant size == TextSize(s[..i]) && Clean(s[..i]) && (i == 0 || size <= remaining)
    {
      if Surrogate(s[i]) || s[i] == 0 {
        return None;
      }
      assert s[..i + 1] == s[..i] + [s[i]];
      TextAppend(s[..i], s[i]);
      size := size + CharSize(s[i]);
      if size > remaining {
        TextMonotone(s[..i + 1], s);
        return None;
      }
    }
    assert s[..|s|] == s;
    return Some(size);
  }

  /** Succeeds exactly when the value is within bounds and its canonical text fits the
      remaining budget, and then predicts that text's length. */
  method WireSize(v: Value, remaining: int, depth: nat) returns (r: Option<nat>)
    ensures r == if InBounds(v, depth) && Size(v) <= remaining then Some(Size(v)) else None
    decreases v, 1
  {
    if depth > MAX_DEPTH {
      return None;
    }
    var size: nat;
    match v {
      case Null => size := 4;
      case Bool(b) => size := if b then 4 else 5;
      case Int(n) => size := |IntText(n)|;
      case Str(s) =>
        var text := WireText(s, remaining);
        if text.None? {
          return None;
        }
        size := text.value;
      case List(items) =>
        if |items| > MAX_RECORDS {
          return None;
        }
        var total := WireItems(items, remaining, depth);
        if total.None? {
          return None;
        }
        size := total.value;
      case Dict(members) =>
        if |members| > MAX_RECORDS {
          return None;
        }
        var total := WireMembers(members, remaining, depth);
        if total.None? {
          return None;
        }
        size := total.value;
    }
    return if size > remaining then None else Some(size);
  }

  method WireItems(items: seq<Value>, remaining: int, depth: nat) returns (r: Option<nat>)
    ensures r.Some? ==>
      r.value == Size(List(items)) && forall i :: 0 <= i < |items| ==> InBounds(items[i], depth + 1)
    ensures r.None? ==>
      Size(List(items)) > remaining || exists i :: 0 <= i < |items| && !InBounds(items[i], depth + 1)
    decreases items, 0
  {
    var size := 2 + Separators(|items|);
    for i := 0 to |items|
      invariant size == 2 + Separators(|items|) + SizeItems(items[..i])
      invariant forall k :: 0 <= k < i ==> InBounds(items[k], depth + 1)
    {
      assert items == items[..i] + [items[i]] + items[i + 1..];
      ItemsAppend(items[..i] + [items[i]], items[i + 1..]);
      ItemAppend(items[..i], items[i]);
      var item := WireSize(items[i], remaining - size, depth + 1);
      if item.None? {
        return None;
      }
      size := size + item.value;
      assert items[..i + 1] == items[..i] + [items[i]];
    }
    assert items[..|items|] == items;
    return Some(size);
  }

  method WireMembers(members: seq<Entry<Value>>, remaining: int, depth: nat) returns (r: Option<nat>)
    ensures r.Some? ==>
      && r.value == Size(Dict(members))
      && forall i :: 0 <= i < |members| ==>
           depth < MAX_DEPTH && Clean(members[i].key) && InBounds(members[i].val, depth + 1)
    ensures r.None? ==>
      || Size(Dict(members)) > remaining
      || exists i :: 0 <= i < |members| &&
           !(depth < MAX_DEPTH && Clean(members[i].key) && InBounds(members[i].val, depth + 1))
    decreases members, 0
  {
    var size := 2 + Separators(|members|);
    for i := 0 to |members|
      invariant size == 2 + Separators(|members|) + SizeMembers(members[..i])
      invariant forall k :: 0 <= k < i ==>
        depth < MAX_DEPTH && Clean(members[k].key) && InBounds(members[k].val, depth + 1)
    {
      assert members == members[..i] + [members[i]] + members[i + 1..];
      MembersAppend(members[..i] + [members[i]], members[i + 1..]);
      MemberAppend(members[..i], members[i]);
      if depth + 1 > MAX_DEPTH {
        return None;
      }
      var name := WireText(members[i].key, remaining - size);
      if name.None? || name.value > remaining - size {
        return None;
      }
      size := size + name.value + 1;
      var item := WireSize(members[i].val, remaining - size, depth + 1);
      if item.None? {
        return None;
      }
      size := size + item.value;
      assert members[..i + 1] == members[..i] + [members[i]];
    }
    assert members[..|members|] == members;
    return Some(size);
  }

  // ----- The ledger side: charges separators as it goes -----

  /** Returns the same number. It refuses a negative budget at once but never charges an
      empty string, so that value alone is accepted with less than its two characters left. */
  method SuccessorSize(v: Value, remaining: int, depth: nat) returns (r: Option<nat>)
    ensures r.Some? ==> InBounds(v, depth) && r.value == Size(v)
    ensures r.Some? <==> InBounds(v, depth) && 0 <= remaining && (Size(v) <= remaining || v == Str([]))
    decreases v, 1
  {
    if depth > MAX_DEPTH || remaining < 0 {
      return None;
    }
    match v {
      case Str(s) =>
        r := WireText(s, remaining);
      case List(items) =>
        if |items| > MAX_RECORDS {
          return None;
        }
        r := SuccessorItems(items, remaining, depth);
        if r.Some? && r.value > remaining {
          return None;
        }
      case Dict(members) =>
        if |members| > MAX_RECORDS {
          return None;
        }
        r := SuccessorMembers(members, remaining, depth);
        if r.Some? && r.value > remaining {
          return None;
        }
      case _ =>
        var size := |Emit(v)|;
        JsonFacts.EmitLength(v);
        return if size > remaining then None else Some(size);
    }
  }

  method SuccessorItems(items: seq<Value>, remaining: int, depth: nat) returns (r: Option<nat>)
    ensures r.Some? ==>
      r.value == Size(List(items)) && forall i :: 0 <= i < |items| ==> InBounds(items[i], depth + 1)
    ensures r.None? ==>
      Size(List(items)) > remaining || exists i :: 0 <= i < |items| && !InBounds(items[i], depth + 1)
    decreases items, 0
  {
    var size := 2;
    for i := 0 to |items|
      invariant size == 2 + Separators(i) + SizeItems(items[..i])
      invariant forall k :: 0 <= k < i ==> InBounds(items[k], depth + 1)
    {
      assert items == items[..i] + [items[i]] + items[i + 1..];
      ItemsAppend(items[..i] + [items[i]], items[i + 1..]);
      ItemAppend(items[..i], items[i]);
      size := size + (if i > 0 then 1 else 0);
      var item := SuccessorSize(items[i], remaining - size, depth + 1);
      if item.None? {
        return None;
      }
      size := size + item.value;
      assert items[..i + 1] == items[..i] + [items[i]];
    }
    assert items[..|items|] == items;
    return Some(size);
  }

  method SuccessorMembers(members: seq<Entry<Value>>, remaining: int, depth: nat) returns (r: Option<nat>)
    ensures r.Some? ==>
      && r.value == Size(Dict(members))
      && forall i :: 0 <= i < |members| ==>
           depth < MAX_DEPTH && Clean(members[i].key) && InBounds(members[i].val, depth + 1)
    ensures r.None? ==>
      || Size(Dict(members)) > remaining
      || exists i :: 0 <= i < |members| &&
           !(depth < MAX_DEPTH && Clean(members[i].key) && InBounds(members[i].val, depth + 1))
    decreases members, 0
  {
    var size := 2;
    for i := 0 to |members|
      invariant size == 2 + Separators(i) + SizeMembers(members[..i])
      invariant forall k :: 0 <= k < i ==>
        depth < MAX_DEPTH && Clean(members[k].key) && InBounds(members[k].val, depth + 1)
    {
      assert members == members[..i] + [members[i]] + members[i + 1..];
      MembersAppend(members[..i] + [members[i]], members[i + 1..]);
      MemberAppend(members[..i], members[i]);
      size := size + (if i > 0 then 1 else 0) + 1;
      if depth + 1 > MAX_DEPTH || remaining - size < 0 {
        return None;
      }
      var name := WireText(members[i].key, remaining - size);
      if name.None? {
        return None;
      }
      size := size + name.value;
      var item := SuccessorSize(members[i].val, remaining - size, depth + 1);
      if item.None? {
        return None;
      }
      size := size + item.value;
      assert members[..i + 1] == members[..i] + [members[i]];
    }
    assert members[..|members|] == members;
    return Some(size);
  }

  // ----- Emitting the canonical text -----

  function Flatten(fragments: seq<Text>): Text {
    if fragments == [] then [] else fragments[0] + Flatten(fragments[1..])
  }

  lemma {:induction false} FlattenAppend(a: seq<Text>, b: seq<Text>)
    ensures Flatten(a + b) == Flatten(a) + Flatten(b)
  {
    if a == [] {
      assert a + b == b;
    } else {
      assert (a + b)[1..] == a[1..] + b;
      FlattenAppend(a[1..], b);
    }
  }

  /** A string body, escaped in pieces of bounded length. */
  function Chunks(s: Text): seq<Text> {
    if |s| <= FRAGMENT then (if s == [] then [] else [Escape(s)])
    else [Escape(s[..FRAGMENT])] + Chunks(s[FRAGMENT..])
  }

  /** The fragments of a value whose mappings are in key order. */
  function Fragments(v: Value): seq<Text>
    decreases v, 1
  {
    match v
    case Str(s) => StrFragments(s)
    case List(items) => [[LBRACKET]] + ItemFragments(items) + [[RBRACKET]]
    case Dict(members) => [[LBRACE]] + MemberFragments(members) + [[RBRACE]]
    case _ => [Emit(v)]
  }

  function StrFragments(s: Text): seq<Text> {
    [[QUOTE]] + Chunks(s) + [[QUOTE]]
  }

  function ItemFragments(items: seq<Value>): seq<Text>
    decreases items, 0
  {
    if items == [] then []
    else if |items| == 1 then Fragments(items[0])
    else Fragments(items[0]) + [[COMMA]] + ItemFragments(items[1..])
  }

  function MemberFragments(members: seq<Entry<Value>>): seq<Text>
    decreases members, 0
  {
    if members == [] then []
    else
      var first := StrFragments(members[0].key) + [[COLON]] + Fragments(members[0].val);
      if |members| == 1 then first else first + [[COMMA]] + MemberFragments(members[1..])
  }

  /** What the writer yields for a value: every mapping visited in key order. */
  function PlanFragments(v: Value): seq<Text> {
    Fragments(Norm(v))
  }

  lemma {:induction false} ChunksFlatten(s: Text)
    ensures Flatten(Chunks(s)) == Escape(s)
    decreases |s|
  {
    if |s| > FRAGMENT {
      var a, b := s[..FRAGMENT], s[FRAGMENT..];
      assert s == a + b;
      EscapeConcat(a, b);
      ChunksFlatten(b);
      assert Chunks(s)[1..] == Chunks(b);
    } else if s != [] {
      assert Chunks(s)[1..] == [];
    }
  }

  /** Each piece of a string holds the next 4096 characters, the last one what is left. */
  lemma {:induction false} ChunksCut(s: Text, i: nat)
    ensures |Chunks(s)| == (|s| + 4095) / 4096
    ensures i < |Chunks(s)| ==> Chunks(s)[i] == Escape(Piece(s, i))
    decreases |s|
  {
    hide Escape;
    if |s| > 4096 {
      ChunksCut(s[4096..], if i == 0 then 0 else i - 1);
      assert (|s[4096..]| + 4095) / 4096 == (|s| + 4095) / 4096 - 1;
      if 0 < i < |Chunks(s)| { PieceBehind(s, i); }
    } else {
      assert s[0..|s|] == s;
    }
  }

  /** The characters from place 4096 i on, at most 4096 of them. */
  function Piece(s: Text, i: nat): Text {
    if 4096 * i > |s| then [] else if 4096 * (i + 1) <= |s| then s[4096 * i..4096 * (i + 1)] else s[4096 * i..]
  }

  lemma PieceBehind(s: Text, i: nat)
    requires |s| > 4096 && i > 0
    ensures Piece(s[4096..], i - 1) == Piece(s, i)
  {
  }

  lemma FlattenWrapped(open: Text, body: seq<Text>, close: Text)
    ensures Flatten([open] + body + [close]) == open + Flatten(body) + close
  {
    FlattenAppend([open] + body, [close]);
    FlattenAppend([open], body);
    assert [open][1..] == [] && [close][1..] == [];
  }

  lemma FlattenJoined(a: seq<Text>, sep: Text, b: seq<Text>)
    ensures Flatten(a + [sep] + b) == Flatten(a) + sep + Flatten(b)
  {
    FlattenAppend(a + [sep], b);
    FlattenAppend(a, [sep]);
    assert [sep][1..] == [];
  }

  lemma StrFlatten(s: Text)
    ensures Flatten(StrFragments(s)) == Quote(s)
  {
    ChunksFlatten(s);
    FlattenWrapped([QUOTE], Chunks(s), [QUOTE]);
  }

  lemma {:induction false} FragmentsFlatten(v: Value)
    ensures Flatten(Fragments(v)) == Emit(v)
    decreases v, 1
  {
    match v
    case Str(s) => StrFlatten(s);
    case List(items) =>
      ItemsFlatten(items);
      FlattenWrapped([LBRACKET], ItemFragments(items), [RBRACKET]);
    case Dict(members) =>
      MembersFlatten(members);
      FlattenWrapped([LBRACE], MemberFragments(members), [RBRACE]);
    case _ =>
      assert [Emit(v)][1..] == [];
  }

  lemma {:induction false} ItemsFlatten(items: seq<Value>)
    ensures Flatten(ItemFragments(items)) == EmitItems(items)
    decreases items, 0
  {
    if items != [] {
      FragmentsFlatten(items[0]);
      ItemsFlatten(items[1..]);
      FlattenJoined(Fragments(items[0]), [COMMA], ItemFragments(items[1..]));
    }
  }

  lemma {:induction false} MembersFlatten(members: seq<Entry<Value>>)
    ensures Flatten(MemberFragments(members)) == EmitMembers(members)
    decreases members, 0
  {
    if members != [] {
      StrFlatten(members[0].key);
      FragmentsFlatten(members[0].val);
      var first := StrFragments(members[0].key) + [[COLON]] + Fragments(members[0].val);
      FlattenJoined(StrFragments(members[0].key), [COLON], Fragments(members[0].val));
      MembersFlatten(members[1..]);
      FlattenJoined(first, [COMMA], MemberFragments(members[1..]));
    }
  }

  lemma {:induction false} PrefixLength(fragments: seq<Text>, i: nat)
    requires i < |fragments|
    ensures Flatten(fragments[..i + 1]) == Flatten(fragments[..i]) + fragments[i]
    ensures |Flatten(fragments[..i + 1])| <= |Flatten(fragments)|
  {
    assert fragments[..i + 1] == fragments[..i] + [fragments[i]];
    FlattenAppend(fragments[..i], [fragments[i]]);
    assert Flatten([fragments[i]]) == fragments[i] + Flatten([]);
    assert fragments == fragments[..i + 1] + fragments[i + 1..];
    FlattenAppend(fragments[..i + 1], fragments[i + 1..]);
  }

  /** Emits the canonical text. Its guards against emitting more or less than predicted
      never fire: whatever is within bounds and budget is encoded. */
  method PlanEncode(v: Value) returns (r: Option<Text>)
    ensures r == if InBounds(v, 0) && Size(v) <= DOCUMENT_BYTES then Some(Encode(v)) else None
  {
    var size := WireSize(v, DOCUMENT_BYTES, 0);
    if size.None? {
      return None;
    }
    var fragments := PlanFragments(v);
    FragmentsFlatten(Norm(v));
    JsonFacts.EncodeLength(v);
    var emitted, text: Text := 0, [];
    for i := 0 to |fragments|
      invariant text == Flatten(fragments[..i]) && emitted == |text|
    {
      PrefixLength(fragments, i);
      emitted := emitted + |fragments[i]|;
      if emitted > size.value {
        assert false;
      }
      text := text + fragments[i];
    }
    assert fragments[..|fragments|] == fragments;
    if emitted != size.value {
      assert false;
    }
    return Some(text);
  }

  /** The digest of the canonical text, fed fragment by fragment. */
  method PlanHash<H>(v: Value, digest: Text -> H) returns (r: Option<H>)
    ensures r == if InBounds(v, 0) && Size(v) <= DOCUMENT_BYTES then Some(digest(Encode(v))) else None
  {
    var size := WireSize(v, DOCUMENT_BYTES, 0);
    if size.None? {
      return None;
    }
    var fragments := PlanFragments(v);
    FragmentsFlatten(Norm(v));
    JsonFacts.EncodeLength(v);
    var emitted, fed: Text := 0, [];
    for i := 0 to |fragments|
      invariant fed == Flatten(fragments[..i]) && emitted == |fed|
    {
      PrefixLength(fragments, i);
      emitted := emitted + |fragments[i]|;
      if emitted > size.value {
        assert false;
      }
      fed := fed + fragments[i];
    }
    assert fragments[..|fragments|] == fragments;
    if emitted != size.value {
      assert false;
    }
    return Some(digest(fed));
  }
}

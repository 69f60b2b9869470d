/** JSON values as the recovery and ledger code handles them, their canonical ASCII
    text, and the two numbers that are predicted about that text: its length and the
    extra length it takes when it is embedded in a document as a JSON string. */
module JsonValue {
  import opened Decimal
  import opened Text

  /** A mapping keeps its items in insertion order, as a Python dict does. */
  datatype Value =
    | Null
    | Bool(b: bool)
    | Int(n: int)
    | Str(s: Text)
    | List(items: seq<Value>)
    | Dict(members: seq<Entry<Value>>)

  const QUOTE: Code := '"' as int
  const BACKSLASH: Code := '\\' as int
  const COMMA: Code := ',' as int
  const COLON: Code := ':' as int
  const LBRACKET: Code := '[' as int
  const RBRACKET: Code := ']' as int
  const LBRACE: Code := '{' as int
  const RBRACE: Code := '}' as int
  const MINUS: Code := '-' as int

  // ----- Strings -----

  predicate Surrogate(c: Code) { 0xD800 <= c <= 0xDFFF }

  /** Neither NUL nor a surrogate: the characters every reader of text admits. */
  predicate Clean(s: Text) {
    forall c :: c in s ==> c != 0 && !Surrogate(c)
  }

  /** The letter of the two-character escape of a control character. */
  function ShortEscape(c: Code): Option<Code> {
    if c == 8 then Some('b' as int)
    else if c == 9 then Some('t' as int)
    else if c == 10 then Some('n' as int)
    else if c == 12 then Some('f' as int)
    else if c == 13 then Some('r' as int)
    else None
  }

  function HexDigit(d: nat): Code
    requires d < 16
  {
    if d < 10 then 48 + d else 97 + d - 10
  }

  function Unicode(u: nat): (r: Text)
    requires u <= 0xFFFF
    ensures |r| == 6
  {
    [BACKSLASH, 'u' as int, HexDigit(u / 4096), HexDigit(u / 256 % 16), HexDigit(u / 16 % 16), HexDigit(u % 16)]
  }

  /** The two halves a code point above the basic plane is escaped as. */
  function HighHalf(c: Code): (u: nat)
    requires c > 0xFFFF
    ensures 0xD800 <= u <= 0xDBFF
  {
    0xD800 + (c - 0x10000) / 1024
  }

  function LowHalf(c: Code): (u: nat)
    requires c > 0xFFFF
    ensures 0xDC00 <= u <= 0xDFFF
  {
    0xDC00 + (c - 0x10000) % 1024
  }

  /** One character inside a canonical string. DEL and everything beyond ASCII is
      escaped, and a code point above the basic plane becomes a surrogate pair. */
  function EscapeChar(c: Code): Text {
    if c == QUOTE || c == BACKSLASH then [BACKSLASH, c]
    else if ShortEscape(c).Some? then [BACKSLASH, ShortEscape(c).value]
    else if c < 32 || 127 <= c <= 0xFFFF then Unicode(c)
    else if c > 0xFFFF then Unicode(HighHalf(c)) + Unicode(LowHalf(c))
    else [c]
  }

  function Escape(s: Text): Text {
    if s == [] then [] else EscapeChar(s[0]) + Escape(s[1..])
  }

  function Quote(s: Text): Text {
    [QUOTE] + Escape(s) + [QUOTE]
  }

  lemma {:induction false} EscapeConcat(a: Text, b: Text)
    ensures Escape(a + b) == Escape(a) + Escape(b)
  {
    if a == [] {
      assert a + b == b;
    } else {
      assert (a + b)[1..] == a[1..] + b;
      EscapeConcat(a[1..], b);
    }
  }

  // ----- Integers -----

  function IntText(n: int): Text {
    if n < 0 then [MINUS] + Digits(-n) else Digits(n)
  }

  // ----- Canonical text -----

  /** The text of a value whose mappings are already in key order. */
  function Emit(v: Value): Text
    decreases v, 1
  {
    match v
    case Null => Ascii("null")
    case Bool(b) => if b then Ascii("true") else Ascii("false")
    case Int(n) => IntText(n)
    case Str(s) => Quote(s)
    case List(items) => [LBRACKET] + EmitItems(items) + [RBRACKET]
    case Dict(members) => [LBRACE] + EmitMembers(members) + [RBRACE]
  }

  function EmitItems(items: seq<Value>): Text
    decreases items, 0
  {
    if items == [] then []
    else if |items| == 1 then Emit(items[0])
    else Emit(items[0]) + [COMMA] + EmitItems(items[1..])
  }

  function EmitMember(m: Entry<Value>): Text
    decreases m, 2
  {
    Quote(m.key) + [COLON] + Emit(m.val)
  }

  function EmitMembers(members: seq<Entry<Value>>): Text
    decreases members, 3
  {
    if members == [] then []
    else if |members| == 1 then EmitMember(members[0])
    else EmitMember(members[0]) + [COMMA] + EmitMembers(members[1..])
  }

  /** The value with every mapping's items in key order. */
  function Norm(v: Value): Value
    decreases v, 1
  {
    match v
    case List(items) => List(NormItems(items))
    case Dict(members) => Dict(Sort(NormMembers(members)))
    case _ => v
  }

  function NormItems(items: seq<Value>): (r: seq<Value>)
    ensures |r| == |items|
    ensures forall i :: 0 <= i < |items| ==> r[i] == Norm(items[i])
    decreases items, 0
  {
    if items == [] then [] else [Norm(items[0])] + NormItems(items[1..])
  }

  function NormMembers(members: seq<Entry<Value>>): (r: seq<Entry<Value>>)
    ensures |r| == |members|
    ensures forall i :: 0 <= i < |members| ==> r[i] == Entry(members[i].key, Norm(members[i].val))
    decreases members, 0
  {
    if members == [] then []
    else [Entry(members[0].key, Norm(members[0].val))] + NormMembers(members[1..])
  }

  /** The canonical text: keys sorted at every level, no spaces, ASCII only. */
  function Encode(v: Value): Text {
    Emit(Norm(v))
  }

  // ----- Predicted length and embedding overhead -----

  function CharSize(c: Code): nat {
    if c == QUOTE || c == BACKSLASH || c in {8, 9, 10, 12, 13} then 2
    else if c < 32 || 127 <= c <= 0xFFFF then 6
    else if c > 0xFFFF then 12
    else 1
  }

  function CharOverhead(c: Code): nat {
    if c == QUOTE || c == BACKSLASH then 2
    else if c in {8, 9, 10, 12, 13} then 1
    else if c < 32 || 127 <= c <= 0xFFFF then 1
    else if c > 0xFFFF then 2
    else 0
  }

  function TextSize(s: Text): nat {
    if s == [] then 2 else TextSize(s[..|s| - 1]) + CharSize(s[|s| - 1])
  }

  function TextOverhead(s: Text): nat {
    if s == [] then 2 else TextOverhead(s[..|s| - 1]) + CharOverhead(s[|s| - 1])
  }

  function Separators(n: nat): nat { if n == 0 then 0 else n - 1 }

  function Size(v: Value): nat
    decreases v, 1
  {
    match v
    case Null => 4
    case Bool(b) => if b then 4 else 5
    case Int(n) => |IntText(n)|
    case Str(s) => TextSize(s)
    case List(items) => 2 + Separators(|items|) + SizeItems(items)
    case Dict(members) => 2 + Separators(|members|) + SizeMembers(members)
  }

  function SizeItems(items: seq<Value>): nat
    decreases items, 0
  {
    if items == [] then 0 else Size(items[0]) + SizeItems(items[1..])
  }

  function SizeMembers(members: seq<Entry<Value>>): nat
    decreases members, 0
  {
    if members == [] then 0
    else TextSize(members[0].key) + 1 + Size(members[0].val) + SizeMembers(members[1..])
  }

  function Overhead(v: Value): nat
    decreases v, 1
  {
    match v
    case Str(s) => TextOverhead(s)
    case List(items) => OverheadItems(items)
    case Dict(members) => OverheadMembers(members)
    case _ => 0
  }

  function OverheadItems(items: seq<Value>): nat
    decreases items, 0
  {
    if items == [] then 0 else Overhead(items[0]) + OverheadItems(items[1..])
  }

  function OverheadMembers(members: seq<Entry<Value>>): nat
    decreases members, 0
  {
    if members == [] then 0
    else TextOverhead(members[0].key) + Overhead(members[0].val) + OverheadMembers(members[1..])
  }

  // ----- Bounds -----

  const DOCUMENT_BYTES: int := 16 * 1024 * 1024
  const MAX_DEPTH := 32
  const MAX_RECORDS := 10000
  const MAX_KEY := 64

  /** What every size function accepts at nesting `depth`: bounded nesting and
      collections, and texts free of NUL and surrogates. */
  predicate InBounds(v: Value, depth: nat)
    decreases v
  {
    && depth <= MAX_DEPTH
    && match v
       case Str(s) => Clean(s)
       case List(items) =>
         |items| <= MAX_RECORDS && forall i :: 0 <= i < |items| ==> InBounds(items[i], depth + 1)
       case Dict(members) =>
         |members| <= MAX_RECORDS
         && forall i :: 0 <= i < |members| ==>
              depth < MAX_DEPTH && Clean(members[i].key) && InBounds(members[i].val, depth + 1)
       case _ => true
  }

  /** What the scanner admits on top of that: signed 64-bit integers, short keys, and no
      container at the deepest level, not even an empty one. */
  predicate InDomain(v: Value, depth: nat)
    decreases v
  {
    && depth <= MAX_DEPTH
    && match v
       case Int(n) => -0x8000_0000_0000_0000 <= n < 0x8000_0000_0000_0000
       case Str(s) => Clean(s)
       case List(items) =>
         depth < MAX_DEPTH && |items| <= MAX_RECORDS
         && forall i :: 0 <= i < |items| ==> InDomain(items[i], depth + 1)
       case Dict(members) =>
         depth < MAX_DEPTH && |members| <= MAX_RECORDS
         && forall i :: 0 <= i < |members| ==>
              Clean(members[i].key) && |members[i].key| <= MAX_KEY && InDomain(members[i].val, depth + 1)
       case _ => true
  }

  // ----- Equality of values -----

  /** No mapping, at any depth, holds one key twice. */
  predicate WellFormed(v: Value)
    decreases v
  {
    match v
    case List(items) => forall i :: 0 <= i < |items| ==> WellFormed(items[i])
    case Dict(members) => DistinctKeys(members) && forall i :: 0 <= i < |members| ==> WellFormed(members[i].val)
    case _ => true
  }

  /** Equality of values: mappings are compared by key, whatever their item order. */
  predicate Same(v: Value, w: Value)
    decreases v
  {
    match v
    case List(items) =>
      w.List? && |items| == |w.items| && forall i :: 0 <= i < |items| ==> Same(items[i], w.items[i])
    case Dict(members) =>
      w.Dict? && |members| == |w.members| &&
      forall i :: 0 <= i < |members| ==>
        exists j :: 0 <= j < |w.members| && w.members[j].key == members[i].key && Same(members[i].val, w.members[j].val)
    case _ => v == w
  }
}

/** A reader of JSON text (RFC 8259) that builds the value, with no bound on sizes or
    nesting: the meaning of "the decoded value" for everything that only scans text.
    Floating-point numbers are outside the model, so a text holding one has no value. */
module JsonDecode {
  import opened Decimal
  import opened Text
  import opened JsonValue

  /** A value read from the front of a text, and what is left of the text. */
  datatype Parsed<+T> = Parsed(val: T, rest: Text)

  predicate Space(c: Code) { c in {32, 13, 10, 9} }

  function SkipSpace(t: Text): (r: Text)
    ensures |r| <= |t|
    ensures r != [] ==> !Space(r[0])
  {
    if t != [] && Space(t[0]) then SkipSpace(t[1..]) else t
  }

  predicate At(t: Text, c: Code) { t != [] && t[0] == c }

  // ----- Strings -----

  function HexValue(c: Code): Option<nat> {
    if 48 <= c <= 57 then Some(c - 48)
    else if 97 <= c <= 102 then Some(c - 97 + 10)
    else if 65 <= c <= 70 then Some(c - 65 + 10)
    else None
  }

  /** The number written by the first four characters, if they are hexadecimal digits. */
  function Hex4(t: Text): (r: Option<nat>)
    ensures r.Some? ==> |t| >= 4 && r.value <= 0xFFFF
  {
    if |t| < 4 || (exists i :: 0 <= i < 4 && HexValue(t[i]).None?) then None
    else Some(4096 * HexValue(t[0]).value + 256 * HexValue(t[1]).value + 16 * HexValue(t[2]).value
      + HexValue(t[3]).value)
  }

  predicate High(u: int) { 0xD800 <= u <= 0xDBFF }

  predicate Low(u: int) { 0xDC00 <= u <= 0xDFFF }

  /** The second half of a surrogate pair, written as another escape. */
  function LowEscape(t: Text): Option<nat> {
    if |t| >= 2 && t[0] == BACKSLASH && t[1] == 'u' as int && Hex4(t[2..]).Some? && Low(Hex4(t[2..]).value)
    then Hex4(t[2..]) else None
  }

  function Unescaped(c: Code): Option<Code> {
    if c == QUOTE || c == BACKSLASH || c == '/' as int then Some(c)
    else if c == 'b' as int then Some(8)
    else if c == 'f' as int then Some(12)
    else if c == 'n' as int then Some(10)
    else if c == 'r' as int then Some(13)
    else if c == 't' as int then Some(9)
    else None
  }

  /** The character an escape stands for; `t` starts behind its backslash. A surrogate
      that is not part of a pair stands for itself. */
  function DecodeEscape(t: Text): (r: Option<Parsed<Code>>)
    ensures r.Some? ==> |r.value.rest| < |t|
  {
    if t == [] then None
    else if t[0] == 'u' as int then
      var u := Hex4(t[1..]);
      if u.None? then None
      else if High(u.value) && LowEscape(t[5..]).Some? then
        Some(Parsed(0x10000 + (u.value - 0xD800) * 1024 + (LowEscape(t[5..]).value - 0xDC00), t[11..]))
      else Some(Parsed(u.value, t[5..]))
    else if Unescaped(t[0]).Some? then Some(Parsed(Unescaped(t[0]).value, t[1..]))
    else None
  }

  /** One character inside a string, written plainly or as an escape. */
  function DecodeChar(t: Text): (r: Option<Parsed<Code>>)
    ensures r.Some? ==> |r.value.rest| < |t|
  {
    if t == [] then None
    else if t[0] == BACKSLASH then DecodeEscape(t[1..])
    else if t[0] < 32 then None
    else Some(Parsed(t[0], t[1..]))
  }

  /** The rest of a string, after the characters `acc`, up to its closing quote. */
  function DecodeChars(t: Text, acc: Text): (r: Option<Parsed<Text>>)
    ensures r.Some? ==> |r.value.rest| < |t|
    decreases |t|
  {
    if At(t, QUOTE) then Some(Parsed(acc, t[1..]))
    else
      var c := DecodeChar(t);
      if c.None? then None else DecodeChars(c.value.rest, acc + [c.value.val])
  }

  function DecodeString(t: Text): (r: Option<Parsed<Text>>)
    ensures r.Some? ==> |r.value.rest| < |t|
  {
    var u := SkipSpace(t);
    if At(u, QUOTE) then DecodeChars(u[1..], []) else None
  }

  // ----- Literals and numbers -----

  predicate Delimiter(c: Code) { Space(c) || c in {COMMA, RBRACKET, RBRACE, COLON} }

  function TokenLength(t: Text): (n: nat)
    ensures n <= |t|
    ensures forall i :: 0 <= i < n ==> !Delimiter(t[i])
    ensures n < |t| ==> Delimiter(t[n])
  {
    if t == [] || Delimiter(t[0]) then 0 else 1 + TokenLength(t[1..])
  }

  /** The magnitude part of a number's text. */
  function Magnitude(token: Text): Text {
    if At(token, MINUS) then token[1..] else token
  }

  predicate IsInteger(token: Text) { Canonical(Magnitude(token)) }

  function IntegerValue(token: Text): int
    requires IsInteger(token)
  {
    var m: int := DigitsValue(Magnitude(token));
    if At(token, MINUS) then -m else m
  }

  function DecodeToken(token: Text): Option<Value> {
    if token == Ascii("true") then Some(Bool(true))
    else if token == Ascii("false") then Some(Bool(false))
    else if token == Ascii("null") then Some(Null)
    else if IsInteger(token) then Some(Int(IntegerValue(token)))
    else None
  }

  // ----- Values -----

  function DecodeValue(t: Text): (r: Option<Parsed<Value>>)
    ensures r.Some? ==> |r.value.rest| < |t|
    decreases |t|, 1
  {
    var u := SkipSpace(t);
    if u == [] then None
    else if u[0] == QUOTE then
      var s := DecodeChars(u[1..], []);
      if s.None? then None else Some(Parsed(Str(s.value.val), s.value.rest))
    else if u[0] == LBRACKET then DecodeArray(u[1..])
    else if u[0] == LBRACE then DecodeObject(u[1..])
    else
      var n := TokenLength(u);
      var v := DecodeToken(u[..n]);
      if n == 0 || v.None? then None else Some(Parsed(v.value, u[n..]))
  }

  function DecodeArray(t: Text): (r: Option<Parsed<Value>>)
    ensures r.Some? ==> |r.value.rest| < |t|
    decreases |t|, 4
  {
    var w := SkipSpace(t);
    if At(w, RBRACKET) then Some(Parsed(List([]), w[1..]))
    else
      var items := DecodeItems(w, []);
      if items.None? then None else Some(Parsed(List(items.value.val), items.value.rest))
  }

  function DecodeObject(t: Text): (r: Option<Parsed<Value>>)
    ensures r.Some? ==> |r.value.rest| < |t|
    decreases |t|, 4
  {
    var w := SkipSpace(t);
    if At(w, RBRACE) then Some(Parsed(Dict([]), w[1..]))
    else
      var members := DecodeMembers(w, []);
      if members.None? then None else Some(Parsed(Dict(members.value.val), members.value.rest))
  }

  /** The rest of an array, after the items `acc`. */
  function DecodeItems(t: Text, acc: seq<Value>): (r: Option<Parsed<seq<Value>>>)
    ensures r.Some? ==> |r.value.rest| < |t|
    decreases |t|, 2
  {
    var v := DecodeValue(t);
    if v.None? then None
    else
      var u := SkipSpace(v.value.rest);
      if At(u, RBRACKET) then Some(Parsed(acc + [v.value.val], u[1..]))
      else if At(u, COMMA) then DecodeItems(u[1..], acc + [v.value.val])
      else None
  }

  /** One `key : value` pair. */
  function DecodeMember(t: Text): (r: Option<Parsed<Entry<Value>>>)
    ensures r.Some? ==> |r.value.rest| < |t|
    decreases |t|, 2
  {
    var k := DecodeString(t);
    if k.None? then None
    else
      var u := SkipSpace(k.value.rest);
      if !At(u, COLON) then None
      else
        var v := DecodeValue(u[1..]);
        if v.None? then None else Some(Parsed(Entry(k.value.val, v.value.val), v.value.rest))
  }

  /** The rest of an object, after the members `acc`. An object with a repeated key has
      no value. */
  function DecodeMembers(t: Text, acc: seq<Entry<Value>>): (r: Option<Parsed<seq<Entry<Value>>>>)
    ensures r.Some? ==> |r.value.rest| < |t|
    ensures r.Some? ==> DistinctKeys(r.value.val)
    decreases |t|, 3
  {
    var m := DecodeMember(t);
    if m.None? then None
    else
      var u := SkipSpace(m.value.rest);
      if At(u, RBRACE) then
        if DistinctKeys(acc + [m.value.val]) then Some(Parsed(acc + [m.value.val], u[1..])) else None
      else if At(u, COMMA) then DecodeMembers(u[1..], acc + [m.value.val])
      else None
  }

  /** The value of a whole text. */
  function Decode(t: Text): Option<Value> {
    var v := DecodeValue(t);
    if v.Some? && SkipSpace(v.value.rest) == [] then Some(v.value.val) else None
  }
}

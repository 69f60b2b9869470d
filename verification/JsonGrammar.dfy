/** Which texts write which values: the grammar of RFC 8259 stated in its own characters, without
    reference to the reader or the printer. The reader decodes a text exactly to the value it
    writes; the printer yields the shortest text of the grammar's plain dialect. */
module JsonGrammar {
  import opened Text
  import opened JsonValue
  import opened JsonDecode

  /** `Any` is RFC 8259. `Plain` has no space between tokens, writes only the characters from
      the space to the tilde, and its hexadecimal digits are lower-case. */
  datatype Dialect = Any | Plain

  /** The space allowed between tokens. */
  ghost predicate Blank(w: Text, d: Dialect) {
    if d.Plain? then w == [] else forall i :: 0 <= i < |w| ==> w[i] in {0x20, 0x09, 0x0A, 0x0D}
  }

  // ----- Strings -----

  ghost predicate HexWritten(x: Code, n: int, d: Dialect) {
    || (0 <= n <= 9 && x == '0' as int + n)
    || (10 <= n <= 15 && x == 'a' as int + n - 10)
    || (10 <= n <= 15 && x == 'A' as int + n - 10 && d.Any?)
  }

  /** A `\u` escape. */
  ghost predicate UnicodeWritten(t: Text, u: int, d: Dialect) {
    && |t| == 6 && t[0] == '\\' as int && t[1] == 'u' as int && 0 <= u < 0x1_0000
    && HexWritten(t[2], u / 0x1000, d) && HexWritten(t[3], u / 0x100 % 0x10, d)
    && HexWritten(t[4], u / 0x10 % 0x10, d) && HexWritten(t[5], u % 0x10, d)
  }

  /** The two-character escapes. */
  ghost predicate ShortWritten(x: Code, c: Code) {
    || (c in {'"' as int, '\\' as int, '/' as int} && x == c)
    || (c == 0x08 && x == 'b' as int) || (c == 0x0C && x == 'f' as int) || (c == 0x0A && x == 'n' as int)
    || (c == 0x0D && x == 'r' as int) || (c == 0x09 && x == 't' as int)
  }

  /** One character of a string: plain, escaped by a letter, by its number, or by the numbers of
      its two surrogates. */
  ghost predicate CharWritten(t: Text, c: Code, d: Dialect) {
    || (t == [c] && c >= 0x20 && c != '"' as int && c != '\\' as int && (d.Plain? ==> c <= '~' as int))
    || (|t| == 2 && t[0] == '\\' as int && ShortWritten(t[1], c))
    || UnicodeWritten(t, c, d)
    || (|t| == 12 && c >= 0x1_0000
        && UnicodeWritten(t[..6], 0xD800 + (c - 0x1_0000) / 0x400, d)
        && UnicodeWritten(t[6..], 0xDC00 + (c - 0x1_0000) % 0x400, d))
  }

  ghost predicate CharsWritten(t: Text, s: Text, d: Dialect)
    decreases |s|
  {
    if s == [] then t == []
    else exists k :: 0 <= k <= |t| && CharWritten(t[..k], s[0], d) && CharsWritten(t[k..], s[1..], d)
  }

  ghost predicate StringWritten(t: Text, s: Text, d: Dialect) {
    && |t| >= 2 && t[0] == '"' as int && t[|t| - 1] == '"' as int
    && CharsWritten(t[1..|t| - 1], s, d)
  }

  // ----- Numbers -----

  /** A decimal numeral without leading zeros. */
  ghost predicate NumeralWritten(t: Text, n: nat)
    decreases n
  {
    if n < 10 then t == ['0' as int + n]
    else |t| > 1 && t[|t| - 1] == '0' as int + n % 10 && NumeralWritten(t[..|t| - 1], n / 10)
  }

  ghost predicate IntWritten(t: Text, n: int) {
    || (n >= 0 && NumeralWritten(t, n))
    || (n <= 0 && t != [] && t[0] == '-' as int && NumeralWritten(t[1..], -n))
  }

  // ----- Values -----

  ghost predicate ValueWritten(t: Text, v: Value, d: Dialect)
    decreases v, 1
  {
    match v
    case Null => t == ['n' as int, 'u' as int, 'l' as int, 'l' as int]
    case Bool(b) =>
      t == if b then ['t' as int, 'r' as int, 'u' as int, 'e' as int]
           else ['f' as int, 'a' as int, 'l' as int, 's' as int, 'e' as int]
    case Int(n) => IntWritten(t, n)
    case Str(s) => StringWritten(t, s, d)
    case List(items) =>
      && |t| >= 2 && t[0] == '[' as int && t[|t| - 1] == ']' as int
      && (if items == [] then Blank(t[1..|t| - 1], d) else ItemsWritten(t[1..|t| - 1], items, d))
    case Dict(members) =>
      && |t| >= 2 && t[0] == '{' as int && t[|t| - 1] == '}' as int
      && DistinctKeys(members)
      && (if members == [] then Blank(t[1..|t| - 1], d) else MembersWritten(t[1..|t| - 1], members, d))
  }

  /** A value with space around it. */
  ghost predicate Padded(t: Text, v: Value, d: Dialect)
    decreases v, 2
  {
    exists i, j :: 0 <= i <= j <= |t| && Blank(t[..i], d) && Blank(t[j..], d) && ValueWritten(t[i..j], v, d)
  }

  ghost predicate ItemsWritten(t: Text, items: seq<Value>, d: Dialect)
    requires items != []
    decreases items, 3
  {
    if |items| == 1 then Padded(t, items[0], d)
    else
      exists k ::
        0 <= k < |t| && t[k] == ',' as int && Padded(t[..k], items[0], d) && ItemsWritten(t[k + 1..], items[1..], d)
  }

  ghost predicate KeyWritten(t: Text, s: Text, d: Dialect) {
    exists i, j :: 0 <= i <= j <= |t| && Blank(t[..i], d) && Blank(t[j..], d) && StringWritten(t[i..j], s, d)
  }

  ghost predicate MemberWritten(t: Text, m: Entry<Value>, d: Dialect)
    decreases m, 3
  {
    exists k :: 0 <= k < |t| && t[k] == ':' as int && KeyWritten(t[..k], m.key, d) && Padded(t[k + 1..], m.val, d)
  }

  ghost predicate MembersWritten(t: Text, members: seq<Entry<Value>>, d: Dialect)
    requires members != []
    decreases members, 4
  {
    if |members| == 1 then MemberWritten(t, members[0], d)
    else
      exists k ::
        && 0 <= k < |t| && t[k] == ',' as int
        && MemberWritten(t[..k], members[0], d) && MembersWritten(t[k + 1..], members[1..], d)
  }

  /** The whole text writes this value. */
  ghost predicate Writes(t: Text, v: Value) { Padded(t, v, Any) }

  /** No text or key of the value holds half of a surrogate pair. */
  predicate Legible(v: Value)
    decreases v
  {
    match v
    case Str(s) => LegibleText(s)
    case List(items) => forall i :: 0 <= i < |items| ==> Legible(items[i])
    case Dict(members) => forall i :: 0 <= i < |members| ==> LegibleText(members[i].key) && Legible(members[i].val)
    case _ => true
  }

  predicate LegibleText(s: Text) { forall i :: 0 <= i < |s| ==> !(0xD800 <= s[i] <= 0xDFFF) }
}

/** The reader decodes a text to exactly the value that the text writes. */
module JsonReading {
  import opened Decimal
  import opened Text
  import opened JsonValue
  import opened JsonDecode
  import opened JsonGrammar
  import opened JsonSums

  /** What may follow a value without being read as part of it. */
  predicate Ends(rest: Text) { rest == [] || Delimiter(rest[0]) }

  // ----- Every writing is read -----

  lemma {:induction false} BlankSkipped(w: Text, t: Text)
    requires Blank(w, Any)
    ensures SkipSpace(w + t) == SkipSpace(t)
  {
    if w == [] {
      assert w + t == t;
    } else {
      assert (w + t)[1..] == w[1..] + t;
      BlankSkipped(w[1..], t);
    }
  }

  lemma HexDigitRead(x: Code, n: int)
    requires HexWritten(x, n, Any)
    ensures HexValue(x) == Some(n) && 0 <= n < 16
  {
  }

  lemma HexSum(u: nat)
    ensures 4096 * (u / 4096) + 256 * (u / 256 % 16) + 16 * (u / 16 % 16) + u % 16 == u
  {
    assert u / 4096 == u / 256 / 16 && u / 256 == u / 16 / 16;
  }

  lemma UnicodeRead(t: Text, u: int, rest: Text)
    requires UnicodeWritten(t, u, Any)
    ensures (t + rest)[0] == BACKSLASH && (t + rest)[1] == 'u' as int
    ensures Hex4((t + rest)[2..]) == Some(u) && (t + rest)[6..] == rest
  {
    var h := (t + rest)[2..];
    assert h[0] == t[2] && h[1] == t[3] && h[2] == t[4] && h[3] == t[5];
    HexDigitRead(h[0], u / 0x1000);
    HexDigitRead(h[1], u / 0x100 % 0x10);
    HexDigitRead(h[2], u / 0x10 % 0x10);
    HexDigitRead(h[3], u % 0x10);
    HexSum(u);
    forall i | 0 <= i < 4 ensures HexValue(h[i]).Some? { }
  }

  lemma CharRead(t: Text, c: Code, rest: Text)
    requires CharWritten(t, c, Any) && !Surrogate(c)
    ensures !At(t + rest, QUOTE) && DecodeChar(t + rest) == Some(Parsed(c, rest))
  {
    hide Hex4;
    var s := t + rest;
    if |t| == 1 {
      assert s[1..] == rest;
    } else if |t| == 2 {
      assert s[1..][1..] == rest;
    } else if |t| == 6 {
      hide HexWritten;
      UnicodeRead(t, c, rest);
      assert s[1..][1..] == s[2..] && s[1..][5..] == s[6..];
    } else {
      hide HexWritten;
      var hi, lo := 0xD800 + (c - 0x1_0000) / 0x400, 0xDC00 + (c - 0x1_0000) % 0x400;
      assert s == t[..6] + (t[6..] + rest);
      UnicodeRead(t[..6], hi, t[6..] + rest);
      UnicodeRead(t[6..], lo, rest);
      var e := s[1..];
      assert e[1..] == s[2..] && e[5..] == s[6..] == t[6..] + rest && e[11..] == (t[6..] + rest)[6..];
      assert LowEscape(e[5..]) == Some(lo);
    }
  }

  lemma LegibleTail(s: Text)
    requires LegibleText(s) && s != []
    ensures !Surrogate(s[0]) && LegibleText(s[1..])
  {
  }

  lemma {:induction false} CharsRead(t: Text, s: Text, rest: Text, acc: Text)
    requires CharsWritten(t, s, Any) && LegibleText(s)
    ensures DecodeChars(t + [QUOTE] + rest, acc) == Some(Parsed(acc + s, rest))
    decreases |s|
  {
    hide DecodeChar;
    hide CharWritten;
    hide LegibleText;
    if s == [] {
      assert t + [QUOTE] + rest == [QUOTE] + rest && acc + s == acc;
    } else {
      LegibleTail(s);
      var k :| 0 <= k <= |t| && CharWritten(t[..k], s[0], Any) && CharsWritten(t[k..], s[1..], Any);
      var tail := t[k..] + [QUOTE] + rest;
      assert t + [QUOTE] + rest == t[..k] + tail;
      CharRead(t[..k], s[0], tail);
      CharsRead(t[k..], s[1..], rest, acc + [s[0]]);
      assert acc + [s[0]] + s[1..] == acc + s;
    }
  }

  lemma StringRead(t: Text, s: Text, rest: Text)
    requires StringWritten(t, s, Any) && LegibleText(s)
    ensures DecodeValue(t + rest) == Some(Parsed(Str(s), rest))
    ensures t != [] && t[0] == QUOTE
    ensures DecodeString(t + rest) == Some(Parsed(s, rest))
  {
    hide CharsWritten;
    hide LegibleText;
    var u := t + rest;
    assert SkipSpace(u) == u;
    assert u[1..] == t[1..|t| - 1] + [QUOTE] + rest;
    CharsRead(t[1..|t| - 1], s, rest, []);
    assert [] + s == s;
  }

  lemma {:induction false} NumeralRead(t: Text, n: nat)
    requires NumeralWritten(t, n)
    ensures Canonical(t) && DigitsValue(t) == n
    ensures n > 0 ==> t[0] != 48
    decreases n
  {
    if n < 10 {
      assert t[..0] == [];
    } else {
      NumeralRead(t[..|t| - 1], n / 10);
      assert t[0] == t[..|t| - 1][0];
    }
  }

  /** A token that is no literal, being made of a sign and digits. */
  lemma NoLiteral(t: Text)
    requires t != [] && (t[0] == MINUS || 48 <= t[0] <= 57)
    ensures t != Ascii("true") && t != Ascii("false") && t != Ascii("null")
  {
    assert Ascii("true")[0] == 116 && Ascii("false")[0] == 102 && Ascii("null")[0] == 110;
  }

  predicate Token(t: Text) {
    t != [] && t[0] !in {QUOTE, LBRACKET, LBRACE} && forall i :: 0 <= i < |t| ==> !Delimiter(t[i])
  }

  lemma IntRead(t: Text, n: int)
    requires IntWritten(t, n)
    ensures Token(t) && DecodeToken(t) == Some(Int(n))
  {
    hide DigitsValue;
    hide NumeralWritten;
    if n >= 0 && NumeralWritten(t, n) {
      NumeralRead(t, n);
    } else {
      NumeralRead(t[1..], -n);
      assert forall i :: 1 <= i < |t| ==> t[i] == t[1..][i - 1];
    }
    NoLiteral(t);
    hide Ascii;
  }

  lemma LiteralsRead()
    ensures ['n' as int, 'u' as int, 'l' as int, 'l' as int] == Ascii("null")
    ensures ['t' as int, 'r' as int, 'u' as int, 'e' as int] == Ascii("true")
    ensures ['f' as int, 'a' as int, 'l' as int, 's' as int, 'e' as int] == Ascii("false")
  {
  }

  lemma {:induction false} TokenEnds(token: Text, rest: Text)
    requires forall i :: 0 <= i < |token| ==> !Delimiter(token[i])
    requires Ends(rest)
    ensures TokenLength(token + rest) == |token|
  {
    if token == [] {
      assert token + rest == rest;
    } else {
      assert (token + rest)[1..] == token[1..] + rest;
      TokenEnds(token[1..], rest);
    }
  }

  lemma TokenRead(token: Text, rest: Text)
    requires Token(token) && Ends(rest) && DecodeToken(token).Some?
    ensures DecodeValue(token + rest) == Some(Parsed(DecodeToken(token).value, rest))
  {
    TokenEnds(token, rest);
    var t := token + rest;
    assert !Delimiter(token[0]);
    assert SkipSpace(t) == t;
    assert t[..|token|] == token && t[|token|..] == rest;
  }

  /** The first character of a writing starts a value. */
  lemma Starts(t: Text, v: Value)
    requires ValueWritten(t, v, Any)
    ensures t != [] && !Space(t[0]) && t[0] !in {RBRACKET, RBRACE}
  {
    hide NumeralWritten;
    match v
    case Int(n) => IntRead(t, n); assert !Delimiter(t[0]);
    case _ =>
  }

  /** A writing, followed by anything that may follow a value, is read as its value. */
  lemma {:induction false} ValueRead(t: Text, v: Value, rest: Text)
    requires ValueWritten(t, v, Any) && Legible(v) && Ends(rest)
    ensures DecodeValue(t + rest) == Some(Parsed(v, rest))
    decreases v, 1
  {
    hide DecodeToken;
    hide StringWritten;
    hide LegibleText;
    match v
    case Null => Literal(t, v, rest);
    case Bool(b) => Literal(t, v, rest);
    case Int(n) =>
      IntRead(t, n);
      TokenRead(t, rest);
    case Str(s) => StringRead(t, s, rest);
    case List(items) =>
      Opened(t, rest);
      ArrayRead(t[1..|t| - 1], items, rest);
    case Dict(members) =>
      Opened(t, rest);
      ObjectRead(t[1..|t| - 1], members, rest);
  }

  lemma Literal(t: Text, v: Value, rest: Text)
    requires (v.Null? || v.Bool?) && ValueWritten(t, v, Any) && Ends(rest)
    ensures DecodeValue(t + rest) == Some(Parsed(v, rest))
  {
    LiteralsRead();
    assert DecodeToken(t) == Some(v);
    TokenRead(t, rest);
  }

  lemma Opened(t: Text, rest: Text)
    requires |t| >= 2 && (t[0] == LBRACKET || t[0] == LBRACE)
    ensures (t + rest)[1..] == t[1..|t| - 1] + ([t[|t| - 1]] + rest)
    ensures SkipSpace(t + rest) == t + rest && (t + rest)[0] == t[0]
  {
  }

  /** A padded value in front of a character that ends it. */
  lemma {:induction false} PaddedRead(t: Text, v: Value, rest: Text)
    requires Padded(t, v, Any) && Legible(v) && Ends(rest)
    ensures var d := DecodeValue(t + rest);
      d.Some? && d.value.val == v && SkipSpace(d.value.rest) == SkipSpace(rest)
    ensures var u := SkipSpace(t + rest); u != [] && u[0] !in {RBRACKET, RBRACE}
    decreases v, 2
  {
    hide DecodeValue;
    hide ValueWritten;
    var i, j :| 0 <= i <= j <= |t| && Blank(t[..i], Any) && Blank(t[j..], Any) && ValueWritten(t[i..j], v, Any);
    var tail := t[j..] + rest;
    assert t + rest == t[..i] + (t[i..j] + tail);
    assert tail != [] ==> tail[0] == if j < |t| then t[j..][0] else rest[0];
    ValueRead(t[i..j], v, tail);
    Starts(t[i..j], v);
    BlankSkipped(t[..i], t[i..j] + tail);
    assert SkipSpace(t[i..j] + tail) == t[i..j] + tail;
    SpaceFirst(t + rest);
    SpaceFirst(t[i..j] + tail);
    BlankSkipped(t[j..], rest);
  }

  /** Reading a value skips the space in front of it. */
  lemma SpaceFirst(t: Text)
    ensures SkipSpace(SkipSpace(t)) == SkipSpace(t)
    ensures DecodeValue(t) == DecodeValue(SkipSpace(t))
    ensures DecodeString(t) == DecodeString(SkipSpace(t))
  {
  }

  lemma {:induction false} ArrayRead(t: Text, items: seq<Value>, rest: Text)
    requires Legible(List(items))
    requires if items == [] then Blank(t, Any) else ItemsWritten(t, items, Any)
    ensures DecodeArray(t + ([RBRACKET] + rest)) == Some(Parsed(List(items), rest))
    decreases items, 4
  {
    hide DecodeItems;
    var u := t + ([RBRACKET] + rest);
    assert SkipSpace([RBRACKET] + rest) == [RBRACKET] + rest && ([RBRACKET] + rest)[1..] == rest;
    if items == [] {
      BlankSkipped(t, [RBRACKET] + rest);
    } else {
      ItemsRead(t, items, rest, []);
      ItemsFirst(u, []);
      assert [] + items == items;
    }
  }

  lemma ItemsFirst(t: Text, acc: seq<Value>)
    ensures DecodeItems(t, acc) == DecodeItems(SkipSpace(t), acc)
  {
    SpaceFirst(t);
  }

  lemma LegibleItems(items: seq<Value>)
    requires Legible(List(items)) && items != []
    ensures Legible(items[0]) && Legible(List(items[1..]))
  {
  }

  lemma LastItemRead(t: Text, v: Value, rest: Text, acc: seq<Value>)
    requires Padded(t, v, Any) && Legible(v)
    ensures DecodeItems(t + ([RBRACKET] + rest), acc) == Some(Parsed(acc + [v], rest))
    ensures var u := SkipSpace(t + ([RBRACKET] + rest)); u != [] && u[0] != RBRACKET
    decreases v, 3
  {
    hide DecodeValue;
    hide Padded;
    var close := [RBRACKET] + rest;
    assert SkipSpace(close) == close && close[1..] == rest;
    PaddedRead(t, v, close);
    ItemsContinue(t + close, acc, close);
  }

  lemma NextItemRead(t: Text, k: nat, v: Value, close: Text, acc: seq<Value>)
    requires k < |t| && t[k] == COMMA && Padded(t[..k], v, Any) && Legible(v)
    ensures DecodeItems(t + close, acc) == DecodeItems(t[k + 1..] + close, acc + [v])
    ensures var u := SkipSpace(t + close); u != [] && u[0] != RBRACKET
    decreases v, 3
  {
    hide DecodeValue;
    hide DecodeItems;
    hide Padded;
    var tail := [COMMA] + (t[k + 1..] + close);
    assert t + close == t[..k] + tail;
    assert SkipSpace(tail) == tail && tail[1..] == t[k + 1..] + close;
    PaddedRead(t[..k], v, tail);
    ItemsContinue(t + close, acc, tail);
  }

  lemma {:induction false} ItemsRead(t: Text, items: seq<Value>, rest: Text, acc: seq<Value>)
    requires items != [] && ItemsWritten(t, items, Any) && Legible(List(items))
    ensures DecodeItems(t + ([RBRACKET] + rest), acc) == Some(Parsed(acc + items, rest))
    ensures var u := SkipSpace(t + ([RBRACKET] + rest)); u != [] && u[0] != RBRACKET
    decreases items, 3
  {
    hide DecodeItems;
    hide Padded;
    hide Legible;
    hide SkipSpace;
    LegibleItems(items);
    if |items| == 1 {
      LastItemRead(t, items[0], rest, acc);
      assert acc + items == acc + [items[0]];
    } else {
      var k :| 0 <= k < |t| && t[k] == ',' as int && Padded(t[..k], items[0], Any)
        && ItemsWritten(t[k + 1..], items[1..], Any);
      NextItemRead(t, k, items[0], [RBRACKET] + rest, acc);
      assert acc + [items[0]] + items[1..] == acc + items;
      ItemsRead(t[k + 1..], items[1..], rest, acc + [items[0]]);
    }
  }

  lemma {:induction false} ObjectRead(t: Text, members: seq<Entry<Value>>, rest: Text)
    requires Legible(Dict(members)) && DistinctKeys(members)
    requires if members == [] then Blank(t, Any) else MembersWritten(t, members, Any)
    ensures DecodeObject(t + ([RBRACE] + rest)) == Some(Parsed(Dict(members), rest))
    decreases members, 4
  {
    hide DecodeMembers;
    var u := t + ([RBRACE] + rest);
    assert SkipSpace([RBRACE] + rest) == [RBRACE] + rest && ([RBRACE] + rest)[1..] == rest;
    if members == [] {
      BlankSkipped(t, [RBRACE] + rest);
    } else {
      assert [] + members == members;
      MembersRead(t, members, rest, []);
      MembersFirst(u, []);
    }
  }

  lemma MembersFirst(t: Text, acc: seq<Entry<Value>>)
    ensures DecodeMembers(t, acc) == DecodeMembers(SkipSpace(t), acc)
  {
    SpaceFirst(t);
    assert DecodeMember(t) == DecodeMember(SkipSpace(t));
  }

  lemma KeyRead(t: Text, s: Text, rest: Text)
    requires KeyWritten(t, s, Any) && LegibleText(s)
    ensures var d := DecodeString(t + rest);
      d.Some? && d.value.val == s && SkipSpace(d.value.rest) == SkipSpace(rest)
    ensures var u := SkipSpace(t + rest); u != [] && u[0] == QUOTE
  {
    hide StringWritten;
    hide DecodeString;
    var i, j :| 0 <= i <= j <= |t| && Blank(t[..i], Any) && Blank(t[j..], Any) && StringWritten(t[i..j], s, Any);
    var tail := t[j..] + rest;
    assert t + rest == t[..i] + (t[i..j] + tail);
    StringRead(t[i..j], s, tail);
    BlankSkipped(t[..i], t[i..j] + tail);
    assert SkipSpace(t[i..j] + tail) == t[i..j] + tail;
    SpaceFirst(t + rest);
    SpaceFirst(t[i..j] + tail);
    BlankSkipped(t[j..], rest);
  }

  lemma {:induction false} MemberRead(t: Text, m: Entry<Value>, rest: Text)
    requires MemberWritten(t, m, Any) && LegibleText(m.key) && Legible(m.val) && Ends(rest)
    ensures var d := DecodeMember(t + rest);
      d.Some? && d.value.val == m && SkipSpace(d.value.rest) == SkipSpace(rest)
    ensures var u := SkipSpace(t + rest); u != [] && u[0] == QUOTE
    decreases m, 3
  {
    hide DecodeValue;
    hide DecodeString;
    hide KeyWritten;
    hide Padded;
    var k :| 0 <= k < |t| && t[k] == ':' as int && KeyWritten(t[..k], m.key, Any) && Padded(t[k + 1..], m.val, Any);
    var tail := [COLON] + (t[k + 1..] + rest);
    assert t + rest == t[..k] + tail;
    KeyRead(t[..k], m.key, tail);
    assert SkipSpace(tail) == tail && tail[1..] == t[k + 1..] + rest;
    PaddedRead(t[k + 1..], m.val, rest);
  }

  lemma LegibleMembers(members: seq<Entry<Value>>)
    requires Legible(Dict(members)) && members != []
    ensures LegibleText(members[0].key) && Legible(members[0].val) && Legible(Dict(members[1..]))
  {
  }

  lemma Shorter(acc: seq<Entry<Value>>, members: seq<Entry<Value>>)
    requires DistinctKeys(acc + members) && members != []
    ensures DistinctKeys(acc + [members[0]])
  {
    var all, some := acc + members, acc + [members[0]];
    forall i, j | 0 <= i < j < |some| ensures some[i].key != some[j].key {
      assert some[i] == all[i] && some[j] == all[j];
    }
  }

  lemma LastMemberRead(t: Text, m: Entry<Value>, rest: Text, acc: seq<Entry<Value>>)
    requires MemberWritten(t, m, Any) && LegibleText(m.key) && Legible(m.val) && DistinctKeys(acc + [m])
    ensures DecodeMembers(t + ([RBRACE] + rest), acc) == Some(Parsed(acc + [m], rest))
    ensures At(SkipSpace(t + ([RBRACE] + rest)), QUOTE)
    decreases m, 4
  {
    hide DecodeMember;
    hide MemberWritten;
    hide DistinctKeys;
    var close := [RBRACE] + rest;
    assert SkipSpace(close) == close && close[1..] == rest;
    MemberRead(t, m, close);
    MembersContinue(t + close, acc, close);
  }

  lemma NextMemberRead(t: Text, k: nat, m: Entry<Value>, close: Text, acc: seq<Entry<Value>>)
    requires k < |t| && t[k] == COMMA && MemberWritten(t[..k], m, Any)
    requires LegibleText(m.key) && Legible(m.val) && DistinctKeys(acc + [m])
    ensures DecodeMembers(t + close, acc) == DecodeMembers(t[k + 1..] + close, acc + [m])
    ensures At(SkipSpace(t + close), QUOTE)
    decreases m, 4
  {
    hide DecodeMember;
    hide DecodeMembers;
    hide MemberWritten;
    hide DistinctKeys;
    var tail := [COMMA] + (t[k + 1..] + close);
    assert t + close == t[..k] + tail;
    assert SkipSpace(tail) == tail && tail[1..] == t[k + 1..] + close;
    MemberRead(t[..k], m, tail);
    MembersContinue(t + close, acc, tail);
  }

  lemma {:induction false} MembersRead(t: Text, members: seq<Entry<Value>>, rest: Text, acc: seq<Entry<Value>>)
    requires members != [] && MembersWritten(t, members, Any) && Legible(Dict(members)) && DistinctKeys(acc + members)
    ensures DecodeMembers(t + ([RBRACE] + rest), acc) == Some(Parsed(acc + members, rest))
    ensures At(SkipSpace(t + ([RBRACE] + rest)), QUOTE)
    decreases members, 3
  {
    hide DecodeMembers;
    hide DistinctKeys;
    hide MemberWritten;
    hide Legible;
    hide SkipSpace;
    LegibleMembers(members);
    Shorter(acc, members);
    if |members| == 1 {
      LastMemberRead(t, members[0], rest, acc);
      assert acc + members == acc + [members[0]];
    } else {
      var k :| 0 <= k < |t| && t[k] == ',' as int && MemberWritten(t[..k], members[0], Any)
        && MembersWritten(t[k + 1..], members[1..], Any);
      NextMemberRead(t, k, members[0], [RBRACE] + rest, acc);
      assert acc + [members[0]] + members[1..] == acc + members;
      MembersRead(t[k + 1..], members[1..], rest, acc + [members[0]]);
    }
  }

  // ----- Everything read is written -----

  /** The part of a text in front of what is left of it. */
  function Front(t: Text, rest: Text): Text
    requires |rest| <= |t|
  {
    t[..|t| - |rest|]
  }

  lemma HexDigitSound(x: Code)
    requires HexValue(x).Some?
    ensures HexWritten(x, HexValue(x).value, Any) && HexValue(x).value < 16
  {
  }

  lemma HexParts(a: nat, b: nat, c: nat, d: nat)
    requires a < 16 && b < 16 && c < 16 && d < 16
    ensures var u := 4096 * a + 256 * b + 16 * c + d;
      u / 0x1000 == a && u / 0x100 % 0x10 == b && u / 0x10 % 0x10 == c && u % 0x10 == d
  {
    var u := 4096 * a + 256 * b + 16 * c + d;
    assert u / 0x10 == 256 * a + 16 * b + c;
    assert u / 0x100 == 16 * a + b;
    assert u / 0x1000 == a;
  }

  lemma UnicodeSound(t: Text)
    requires |t| >= 2 && t[0] == BACKSLASH && t[1] == 'u' as int && Hex4(t[2..]).Some?
    ensures |t| >= 6 && UnicodeWritten(t[..6], Hex4(t[2..]).value, Any)
  {
    hide HexWritten;
    var h := t[2..];
    HexDigitSound(h[0]);
    HexDigitSound(h[1]);
    HexDigitSound(h[2]);
    HexDigitSound(h[3]);
    HexParts(HexValue(h[0]).value, HexValue(h[1]).value, HexValue(h[2]).value, HexValue(h[3]).value);
  }

  lemma CharSound(t: Text)
    requires DecodeChar(t).Some? && !At(t, QUOTE)
    ensures var c := DecodeChar(t).value;
      && |c.rest| < |t| && t[|t| - |c.rest|..] == c.rest
      && CharWritten(Front(t, c.rest), c.val, Any)
  {
    hide Hex4;
    hide HexWritten;
    var c := DecodeChar(t).value;
    if t[0] == BACKSLASH && t[1] == 'u' as int {
      assert t[1..][1..] == t[2..] && t[1..][5..] == t[6..] && |t[1..]| >= 5;
      UnicodeSound(t);
      var u := Hex4(t[2..]).value;
      if High(u) && LowEscape(t[6..]).Some? {
        UnicodeSound(t[6..]);
        assert t[1..][11..] == t[12..] && t[6..][2..] == t[8..];
        assert t[..12][..6] == t[..6] && t[..12][6..] == t[6..][..6];
      }
    } else if t[0] == BACKSLASH {
      assert t[1..][1..] == t[2..];
    }
  }

  lemma {:induction false} CharsSound(t: Text, acc: Text)
    requires DecodeChars(t, acc).Some?
    ensures var r := DecodeChars(t, acc).value;
      && acc <= r.val && |r.rest| < |t| && t[|t| - |r.rest|..] == r.rest && t[|t| - |r.rest| - 1] == QUOTE
      && CharsWritten(t[..|t| - |r.rest| - 1], r.val[|acc|..], Any)
    decreases |t|
  {
    hide DecodeChar;
    hide CharWritten;
    var r := DecodeChars(t, acc).value;
    if At(t, QUOTE) {
      assert t[..0] == [] && r.val[|acc|..] == [];
    } else {
      CharSound(t);
      var c := DecodeChar(t).value;
      CharsSound(c.rest, acc + [c.val]);
      var s, k, n := r.val[|acc|..], |t| - |c.rest|, |t| - |r.rest| - 1;
      assert s[0] == c.val && s[1..] == r.val[|acc| + 1..];
      assert t[..n][..k] == t[..k] && t[..n][k..] == c.rest[..n - k];
    }
  }

  lemma {:induction false} NumeralSound(t: Text)
    requires Canonical(t)
    ensures NumeralWritten(t, DigitsValue(t)) && (t[0] != 48 ==> DigitsValue(t) > 0)
  {
    var init := t[..|t| - 1];
    if init == [] {
      assert DigitsValue(init) == 0 && t == [t[0]];
    } else {
      NumeralSound(init);
      assert init[0] == t[0];
    }
  }

  lemma TokenSound(t: Text)
    requires DecodeToken(t).Some?
    ensures ValueWritten(t, DecodeToken(t).value, Any)
  {
    hide NumeralWritten;
    hide DigitsValue;
    LiteralsRead();
    hide Ascii;
    if IsInteger(t) { NumeralSound(Magnitude(t)); }
  }

  lemma {:induction false} SpaceSound(t: Text)
    ensures var n := |t| - |SkipSpace(t)|;
      0 <= n <= |t| && t[n..] == SkipSpace(t) && Blank(t[..n], Any)
  {
    if t != [] && Space(t[0]) {
      SpaceSound(t[1..]);
      var n := |t| - |SkipSpace(t)|;
      assert t[1..][n - 1..] == t[n..];
      forall i | 0 <= i < n ensures t[..n][i] in {0x20, 0x09, 0x0A, 0x0D} {
        if i > 0 { assert t[..n][i] == t[1..][..n - 1][i - 1]; }
      }
    } else {
      assert t[..0] == [];
    }
  }

  /** A text read as a value: space, and then a writing of the value up to what is left. */
  ghost predicate Spaced(t: Text, v: Value, rest: Text) {
    && |rest| < |t| && t[|t| - |rest|..] == rest
    && exists i :: 0 <= i <= |t| - |rest| && Blank(t[..i], Any) && ValueWritten(t[i..|t| - |rest|], v, Any)
  }

  lemma MakeSpaced(t: Text, u: Text, v: Value, rest: Text)
    requires u == SkipSpace(t) && |rest| < |u| && u[|u| - |rest|..] == rest
    requires ValueWritten(Front(u, rest), v, Any)
    ensures Spaced(t, v, rest)
  {
    hide ValueWritten;
    SpaceSound(t);
    var i, n := |t| - |u|, |t| - |rest|;
    assert t[i..n] == Front(u, rest);
    assert t[n..] == u[|u| - |rest|..];
  }

  lemma QuoteSound(u: Text)
    requires At(u, QUOTE) && DecodeChars(u[1..], []).Some?
    ensures var r := DecodeChars(u[1..], []).value;
      |r.rest| < |u| && u[|u| - |r.rest|..] == r.rest && StringWritten(Front(u, r.rest), r.val, Any)
  {
    hide CharsWritten;
    CharsSound(u[1..], []);
    var r := DecodeChars(u[1..], []).value;
    assert r.val[0..] == r.val;
    Inside(u, r.rest);
  }

  lemma {:induction false} ValueSound(t: Text)
    requires DecodeValue(t).Some?
    ensures Spaced(t, DecodeValue(t).value.val, DecodeValue(t).value.rest)
    decreases |t|, 1
  {
    hide DecodeArray;
    hide DecodeObject;
    hide DecodeToken;
    hide Spaced;
    hide StringWritten;
    var u := SkipSpace(t);
    var r := DecodeValue(t).value;
    if u[0] == QUOTE {
      QuoteSound(u);
    } else if u[0] == LBRACKET {
      ArraySound(u);
    } else if u[0] == LBRACE {
      ObjectSound(u);
    } else {
      var n := TokenLength(u);
      TokenSound(u[..n]);
      assert Front(u, r.rest) == u[..n];
    }
    MakeSpaced(t, u, r.val, r.rest);
  }

  /** What a container holds between its brackets, seen from behind the first and from before it. */
  lemma Inside(t: Text, rest: Text)
    requires |rest| + 1 < |t| && t[1..][|t| - 1 - |rest|..] == rest
    ensures var n := |t| - |rest|;
      t[n..] == rest && t[..n][1..n - 1] == t[1..][..n - 2] && t[1..][n - 2] == t[n - 1] == t[..n][n - 1]
  {
  }

  lemma {:induction false} ArraySound(t: Text)
    requires At(t, LBRACKET) && DecodeArray(t[1..]).Some?
    ensures var r := DecodeArray(t[1..]).value;
      && |r.rest| < |t| && t[|t| - |r.rest|..] == r.rest && ValueWritten(Front(t, r.rest), r.val, Any)
    decreases |t|, 0
  {
    hide DecodeItems;
    hide ItemsWritten;
    hide SkipSpace;
    hide Blank;
    var w, r := SkipSpace(t[1..]), DecodeArray(t[1..]).value;
    if At(w, RBRACKET) {
      Closed(t, w);
    } else {
      ItemsFirst(t[1..], []);
      ItemsSound(t[1..], []);
      assert r.val.items[0..] == r.val.items;
      Inside(t, r.rest);
    }
  }

  /** A closing bracket right after the space that follows the opening one. */
  lemma Closed(t: Text, w: Text)
    requires t != [] && w != [] && w == SkipSpace(t[1..])
    ensures var n := |t| - |w[1..]|;
      n >= 2 && t[n..] == w[1..] && t[n - 1] == w[0] && Blank(t[..n][1..n - 1], Any)
  {
    SpaceSound(t[1..]);
    var n := |t| - |w[1..]|;
    assert t[1..][n - 2..] == w;
    assert t[..n][1..n - 1] == t[1..][..n - 2];
    assert t[n..] == w[1..];
  }

  /** A spaced value, then space up to `n`. */
  lemma PadSpaced(t: Text, v: Value, rest: Text, n: nat)
    requires Spaced(t, v, rest) && n <= |t| && t[n..] == SkipSpace(rest)
    ensures |t| - |rest| <= n && Padded(t[..n], v, Any)
  {
    hide ValueWritten;
    hide Blank;
    hide SkipSpace;
    SpaceSound(rest);
    var k := |t| - |rest|;
    assert |t[n..]| == |t| - n;
    var i :| 0 <= i <= k && Blank(t[..i], Any) && ValueWritten(t[i..k], v, Any);
    Slices(t, i, k, n);
  }

  lemma {:induction false} ItemsSound(t: Text, acc: seq<Value>)
    requires DecodeItems(t, acc).Some?
    ensures var r := DecodeItems(t, acc).value;
      && acc < r.val && |r.rest| < |t| && t[|t| - |r.rest|..] == r.rest && t[|t| - |r.rest| - 1] == RBRACKET
      && ItemsWritten(t[..|t| - |r.rest| - 1], r.val[|acc|..], Any)
    decreases |t|, 2
  {
    hide DecodeValue;
    hide Padded;
    hide Spaced;
    var v := DecodeValue(t).value;
    var u, r := SkipSpace(v.rest), DecodeItems(t, acc).value;
    ValueSound(t);
    SpacedRest(t, v.val, v.rest);
    var k, n := |t| - |u|, |t| - |r.rest| - 1;
    PadSpaced(t, v.val, v.rest, k);
    if At(u, RBRACKET) {
      assert r.val[|acc|..] == [v.val];
    } else {
      ItemsSound(u[1..], acc + [v.val]);
      var items := r.val[|acc|..];
      assert u[1..] == t[k + 1..];
      assert items[0] == v.val && items[1..] == r.val[|acc| + 1..];
      Cut(t, k, n);
    }
  }

  lemma Cut(t: Text, k: nat, n: nat)
    requires k < n <= |t|
    ensures t[..n][..k] == t[..k] && t[..n][k + 1..] == t[k + 1..][..n - k - 1]
  {
  }

  lemma SpacedRest(t: Text, v: Value, rest: Text)
    requires Spaced(t, v, rest)
    ensures |rest| < |t| && |SkipSpace(rest)| <= |rest| && t[|t| - |SkipSpace(rest)|..] == SkipSpace(rest)
  {
    SpaceSound(rest);
    var u := SkipSpace(rest);
    assert t[|t| - |u|..] == rest[|rest| - |u|..];
  }

  lemma {:induction false} ObjectSound(t: Text)
    requires At(t, LBRACE) && DecodeObject(t[1..]).Some?
    ensures var r := DecodeObject(t[1..]).value;
      && |r.rest| < |t| && t[|t| - |r.rest|..] == r.rest && ValueWritten(Front(t, r.rest), r.val, Any)
    decreases |t|, 0
  {
    hide DecodeMembers;
    hide MembersWritten;
    hide SkipSpace;
    hide Blank;
    var w, r := SkipSpace(t[1..]), DecodeObject(t[1..]).value;
    if At(w, RBRACE) {
      Closed(t, w);
    } else {
      MembersFirst(t[1..], []);
      MembersSound(t[1..], []);
      assert r.val.members[0..] == r.val.members;
      Inside(t, r.rest);
    }
  }

  lemma KeySound(t: Text)
    requires DecodeString(t).Some?
    ensures var key, u := DecodeString(t).value, SkipSpace(DecodeString(t).value.rest);
      |u| < |t| && t[|t| - |u|..] == u && KeyWritten(t[..|t| - |u|], key.val, Any)
  {
    hide DecodeChars;
    hide StringWritten;
    var s, key := SkipSpace(t), DecodeString(t).value;
    SpaceSound(t);
    QuoteSound(s);
    var i, n := |s| - |key.rest|, |t| - |key.rest|;
    assert t[n..] == s[i..];
    assert t[|t| - |s|..n] == s[..i];
    PadKey(t, |t| - |s|, key.val, key.rest);
  }

  lemma Slices(t: Text, i: nat, j: nat, k: nat)
    requires i <= j <= k <= |t|
    ensures t[..k][..i] == t[..i] && t[..k][i..j] == t[i..j] && t[..k][j..] == t[j..][..k - j]
  {
  }

  lemma MakeKey(w: Text, i: nat, j: nat, s: Text)
    requires i <= j <= |w| && Blank(w[..i], Any) && Blank(w[j..], Any) && StringWritten(w[i..j], s, Any)
    ensures KeyWritten(w, s, Any)
  {
    hide Blank;
    hide StringWritten;
  }

  lemma PadKey(t: Text, i: nat, s: Text, rest: Text)
    requires |rest| <= |t| && i <= |t| - |rest| && t[|t| - |rest|..] == rest
    requires Blank(t[..i], Any) && StringWritten(t[i..|t| - |rest|], s, Any)
    ensures var u := SkipSpace(rest); |u| <= |rest| && t[|t| - |u|..] == u && KeyWritten(t[..|t| - |u|], s, Any)
  {
    hide Blank;
    hide StringWritten;
    hide KeyWritten;
    hide SkipSpace;
    var u, j := SkipSpace(rest), |t| - |rest|;
    SpaceSound(rest);
    var k := |t| - |u|;
    assert rest[|rest| - |u|..] == t[k..];
    Slices(t, i, j, k);
    MakeKey(t[..k], i, j, s);
  }

  /** A value read behind place `k`, then space up to `n`. */
  lemma PadFrom(t: Text, k: nat, v: Value, rest: Text, n: nat)
    requires k < |t| && n <= |t| && Spaced(t[k + 1..], v, rest) && t[n..] == SkipSpace(rest)
    ensures k < n && Padded(t[..n][k + 1..], v, Any)
  {
    hide Padded;
    hide Spaced;
    assert |t[n..]| == |t| - n;
    SpacedRest(t[k + 1..], v, rest);
    assert t[k + 1..][n - k - 1..] == t[n..];
    PadSpaced(t[k + 1..], v, rest, n - k - 1);
    Cut(t, k, n);
  }

  lemma MemberParts(t: Text)
    requires DecodeMember(t).Some?
    ensures DecodeString(t).Some?
    ensures var key, m := DecodeString(t).value, DecodeMember(t).value;
      var u := SkipSpace(key.rest);
      At(u, COLON) && DecodeValue(u[1..]) == Some(Parsed(m.val.val, m.rest)) && m.val.key == key.val
  {
    hide DecodeValue;
    hide DecodeString;
  }

  lemma MakeMember(w: Text, k: nat, m: Entry<Value>)
    requires k < |w| && w[k] == ':' as int && KeyWritten(w[..k], m.key, Any) && Padded(w[k + 1..], m.val, Any)
    ensures MemberWritten(w, m, Any)
  {
    hide KeyWritten;
    hide Padded;
  }

  /** The key, the colon and the value of a member, then space up to `n`. */
  lemma MemberSound(t: Text, n: nat)
    requires DecodeMember(t).Some? && n <= |t| && t[n..] == SkipSpace(DecodeMember(t).value.rest)
    ensures MemberWritten(t[..n], DecodeMember(t).value.val, Any)
    decreases |t|, 1
  {
    hide DecodeMember;
    hide DecodeValue;
    hide DecodeString;
    hide KeyWritten;
    hide MemberWritten;
    hide Padded;
    hide Spaced;
    hide SkipSpace;
    MemberParts(t);
    KeySound(t);
    var m, u := DecodeMember(t).value, SkipSpace(DecodeString(t).value.rest);
    var k := |t| - |u|;
    assert u[1..] == t[k + 1..] && u[0] == t[k];
    ValueSound(t[k + 1..]);
    PadFrom(t, k, m.val.val, m.rest, n);
    assert t[..n][..k] == t[..k];
    MakeMember(t[..n], k, m.val);
  }

  lemma {:induction false} MembersSound(t: Text, acc: seq<Entry<Value>>)
    requires DecodeMembers(t, acc).Some?
    ensures var r := DecodeMembers(t, acc).value;
      && acc < r.val && |r.rest| < |t| && t[|t| - |r.rest|..] == r.rest && t[|t| - |r.rest| - 1] == RBRACE
      && MembersWritten(t[..|t| - |r.rest| - 1], r.val[|acc|..], Any)
    decreases |t|, 2
  {
    hide DecodeMember;
    hide MemberWritten;
    var m := DecodeMember(t).value;
    var u, r := SkipSpace(m.rest), DecodeMembers(t, acc).value;
    MemberRest(t);
    var k, n := |t| - |u|, |t| - |r.rest| - 1;
    MemberSound(t, k);
    if At(u, RBRACE) {
      assert r.val[|acc|..] == [m.val];
    } else {
      MembersSound(u[1..], acc + [m.val]);
      var members := r.val[|acc|..];
      assert u[1..] == t[k + 1..];
      assert members[0] == m.val && members[1..] == r.val[|acc| + 1..];
      Cut(t, k, n);
    }
  }

  lemma MemberRest(t: Text)
    requires DecodeMember(t).Some?
    ensures var u := SkipSpace(DecodeMember(t).value.rest); |u| < |t| && t[|t| - |u|..] == u
    decreases |t|, 0
  {
    hide DecodeValue;
    hide DecodeString;
    hide Spaced;
    KeySound(t);
    var u := SkipSpace(DecodeString(t).value.rest);
    var v := DecodeValue(u[1..]).value;
    ValueSound(u[1..]);
    SpacedRest(u[1..], v.val, v.rest);
  }

  // ----- Exactly -----

  /** Main theorem of the reader: a text decodes to a value exactly when it writes that value. */
  lemma DecodeExactly(t: Text, v: Value)
    requires Legible(v)
    ensures Decode(t) == Some(v) <==> Writes(t, v)
  {
    hide DecodeValue;
    hide Padded;
    if Writes(t, v) {
      PaddedRead(t, v, []);
      assert t + [] == t;
    }
    if Decode(t) == Some(v) { DecodedWritten(t); }
  }

  /** Whatever a text decodes to, halves of surrogate pairs included, it writes. */
  lemma DecodedWritten(t: Text)
    requires Decode(t).Some?
    ensures Writes(t, Decode(t).value)
  {
    hide DecodeValue;
    var r := DecodeValue(t).value;
    ValueSound(t);
    PadSpaced(t, r.val, r.rest, |t|);
    assert t[..|t|] == t;
  }

  /** What is written, and so what is decoded, holds no key twice. */
  lemma {:induction false} WrittenWellFormed(t: Text, v: Value)
    requires ValueWritten(t, v, Any)
    ensures WellFormed(v)
    decreases v, 1
  {
    match v
    case List(items) => if items != [] { ItemsWellFormed(t[1..|t| - 1], items); }
    case Dict(members) => if members != [] { MembersWellFormed(t[1..|t| - 1], members); }
    case _ =>
  }

  lemma {:induction false} PaddedWellFormed(t: Text, v: Value)
    requires Padded(t, v, Any)
    ensures WellFormed(v)
    decreases v, 2
  {
    hide ValueWritten;
    var i, j :| 0 <= i <= j <= |t| && Blank(t[..i], Any) && Blank(t[j..], Any) && ValueWritten(t[i..j], v, Any);
    WrittenWellFormed(t[i..j], v);
  }

  lemma {:induction false} ItemsWellFormed(t: Text, items: seq<Value>)
    requires items != [] && ItemsWritten(t, items, Any)
    ensures forall i :: 0 <= i < |items| ==> WellFormed(items[i])
    decreases items, 3
  {
    hide WellFormed;
    hide Padded;
    if |items| == 1 {
      PaddedWellFormed(t, items[0]);
    } else {
      var k :| 0 <= k < |t| && t[k] == ',' as int && Padded(t[..k], items[0], Any)
        && ItemsWritten(t[k + 1..], items[1..], Any);
      PaddedWellFormed(t[..k], items[0]);
      ItemsWellFormed(t[k + 1..], items[1..]);
    }
  }

  lemma MemberWellFormed(t: Text, m: Entry<Value>)
    requires MemberWritten(t, m, Any)
    ensures WellFormed(m.val)
    decreases m, 3
  {
    hide Padded;
    hide KeyWritten;
    var k :| 0 <= k < |t| && t[k] == ':' as int && KeyWritten(t[..k], m.key, Any) && Padded(t[k + 1..], m.val, Any);
    PaddedWellFormed(t[k + 1..], m.val);
  }

  lemma {:induction false} MembersWellFormed(t: Text, members: seq<Entry<Value>>)
    requires members != [] && MembersWritten(t, members, Any)
    ensures forall i :: 0 <= i < |members| ==> WellFormed(members[i].val)
    decreases members, 4
  {
    hide WellFormed;
    hide MemberWritten;
    if |members| == 1 {
      MemberWellFormed(t, members[0]);
    } else {
      var k :| 0 <= k < |t| && t[k] == ',' as int && MemberWritten(t[..k], members[0], Any)
        && MembersWritten(t[k + 1..], members[1..], Any);
      MemberWellFormed(t[..k], members[0]);
      MembersWellFormed(t[k + 1..], members[1..]);
    }
  }

  lemma DecodedWellFormed(t: Text)
    requires Decode(t).Some?
    ensures WellFormed(Decode(t).value)
  {
    hide Decode;
    hide Padded;
    DecodedWritten(t);
    PaddedWellFormed(t, Decode(t).value);
  }
}

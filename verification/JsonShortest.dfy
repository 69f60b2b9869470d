/** The printer yields, of all texts of the plain dialect that write a value, the shortest. */
module JsonShortest {
  import opened Decimal
  import opened Text
  import opened JsonValue
  import opened JsonGrammar

  // ----- What is printed is a writing -----

  lemma UnicodePrinted(u: nat)
    requires u <= 0xFFFF
    ensures UnicodeWritten(Unicode(u), u, Plain)
  {
  }

  lemma CharPrinted(c: Code)
    ensures CharWritten(EscapeChar(c), c, Plain)
  {
    hide Unicode;
    hide UnicodeWritten;
    if c > 0xFFFF {
      UnicodePrinted(HighHalf(c));
      UnicodePrinted(LowHalf(c));
      assert EscapeChar(c)[..6] == Unicode(HighHalf(c)) && EscapeChar(c)[6..] == Unicode(LowHalf(c));
    } else if (c < 32 || c >= 127) && ShortEscape(c).None? {
      UnicodePrinted(c);
    }
  }

  lemma {:induction false} CharsPrinted(s: Text)
    ensures CharsWritten(Escape(s), s, Plain)
  {
    hide EscapeChar;
    hide CharWritten;
    if s != [] {
      CharPrinted(s[0]);
      CharsPrinted(s[1..]);
      var k := |EscapeChar(s[0])|;
      assert Escape(s)[..k] == EscapeChar(s[0]) && Escape(s)[k..] == Escape(s[1..]);
    }
  }

  lemma StringPrinted(s: Text)
    ensures StringWritten(Quote(s), s, Plain)
  {
    CharsPrinted(s);
    assert Quote(s)[1..|Quote(s)| - 1] == Escape(s);
  }

  lemma {:induction false} NumeralPrinted(n: nat)
    ensures NumeralWritten(Digits(n), n)
  {
    if n >= 10 {
      NumeralPrinted(n / 10);
      assert Digits(n)[..|Digits(n)| - 1] == Digits(n / 10);
    }
  }

  lemma IntPrinted(n: int)
    ensures IntWritten(IntText(n), n)
  {
    NumeralPrinted(if n < 0 then -n else n);
    if n < 0 { assert IntText(n)[1..] == Digits(-n); }
  }

  /** Nothing around the value is padding of length zero. */
  lemma Unpadded(t: Text, v: Value)
    requires ValueWritten(t, v, Plain)
    ensures Padded(t, v, Plain)
  {
    hide ValueWritten;
    assert t[..0] == [] && t[|t|..] == [] && t[0..|t|] == t;
  }

  lemma {:induction false} EmitWritten(v: Value)
    requires WellFormed(v)
    ensures ValueWritten(Emit(v), v, Plain)
    decreases v, 1
  {
    hide StringWritten;
    match v
    case Int(n) => IntPrinted(n);
    case Str(s) => StringPrinted(s);
    case List(items) =>
      if items != [] { ItemsPrinted(items); }
      assert Emit(v)[1..|Emit(v)| - 1] == EmitItems(items);
    case Dict(members) =>
      if members != [] { MembersPrinted(members); }
      assert Emit(v)[1..|Emit(v)| - 1] == EmitMembers(members);
    case _ =>
  }

  lemma {:induction false} ItemsPrinted(items: seq<Value>)
    requires items != [] && forall i :: 0 <= i < |items| ==> WellFormed(items[i])
    ensures ItemsWritten(EmitItems(items), items, Plain)
    decreases items, 0
  {
    hide Emit;
    hide Padded;
    EmitWritten(items[0]);
    Unpadded(Emit(items[0]), items[0]);
    if |items| > 1 {
      ItemsPrinted(items[1..]);
      Split(Emit(items[0]), COMMA, EmitItems(items[1..]));
    }
  }

  lemma Split(a: Text, sep: Code, b: Text)
    ensures var t := a + [sep] + b; t[|a|] == sep && t[..|a|] == a && t[|a| + 1..] == b
  {
  }

  lemma MemberPrinted(m: Entry<Value>)
    requires WellFormed(m.val)
    ensures MemberWritten(EmitMember(m), m, Plain)
    decreases m, 2
  {
    hide Emit;
    hide Quote;
    hide StringWritten;
    EmitWritten(m.val);
    Unpadded(Emit(m.val), m.val);
    StringPrinted(m.key);
    var k := Quote(m.key);
    assert k[..0] == [] && k[|k|..] == [] && k[0..|k|] == k;
    assert KeyWritten(k, m.key, Plain);
    Split(k, COLON, Emit(m.val));
  }

  lemma {:induction false} MembersPrinted(members: seq<Entry<Value>>)
    requires members != [] && forall i :: 0 <= i < |members| ==> WellFormed(members[i].val)
    ensures MembersWritten(EmitMembers(members), members, Plain)
    decreases members, 3
  {
    hide EmitMember;
    hide MemberWritten;
    MemberPrinted(members[0]);
    if |members| > 1 {
      MembersPrinted(members[1..]);
      Split(EmitMember(members[0]), COMMA, EmitMembers(members[1..]));
    }
  }

  // ----- The plain dialect is part of the grammar -----

  lemma CharLoose(t: Text, c: Code)
    requires CharWritten(t, c, Plain)
    ensures CharWritten(t, c, Any)
  {
  }

  lemma {:induction false} CharsLoose(t: Text, s: Text)
    requires CharsWritten(t, s, Plain)
    ensures CharsWritten(t, s, Any)
    decreases |s|
  {
    hide CharWritten;
    if s != [] {
      var k :| 0 <= k <= |t| && CharWritten(t[..k], s[0], Plain) && CharsWritten(t[k..], s[1..], Plain);
      CharLoose(t[..k], s[0]);
      CharsLoose(t[k..], s[1..]);
    }
  }

  lemma {:induction false} PlainIsAny(t: Text, v: Value)
    requires ValueWritten(t, v, Plain)
    ensures ValueWritten(t, v, Any)
    decreases v, 1
  {
    hide CharsWritten;
    match v
    case Str(s) => CharsLoose(t[1..|t| - 1], s);
    case List(items) => if items != [] { ItemsLoose(t[1..|t| - 1], items); }
    case Dict(members) => if members != [] { MembersLoose(t[1..|t| - 1], members); }
    case _ =>
  }

  lemma {:induction false} PaddedLoose(t: Text, v: Value)
    requires Padded(t, v, Plain)
    ensures Padded(t, v, Any)
    decreases v, 2
  {
    hide ValueWritten;
    var i, j :| 0 <= i <= j <= |t| && Blank(t[..i], Plain) && Blank(t[j..], Plain) && ValueWritten(t[i..j], v, Plain);
    PlainIsAny(t[i..j], v);
  }

  lemma {:induction false} ItemsLoose(t: Text, items: seq<Value>)
    requires items != [] && ItemsWritten(t, items, Plain)
    ensures ItemsWritten(t, items, Any)
    decreases items, 3
  {
    hide Padded;
    if |items| == 1 {
      PaddedLoose(t, items[0]);
    } else {
      var k :| 0 <= k < |t| && t[k] == ',' as int && Padded(t[..k], items[0], Plain)
        && ItemsWritten(t[k + 1..], items[1..], Plain);
      PaddedLoose(t[..k], items[0]);
      ItemsLoose(t[k + 1..], items[1..]);
    }
  }

  lemma KeyLoose(t: Text, s: Text)
    requires KeyWritten(t, s, Plain)
    ensures KeyWritten(t, s, Any)
  {
    hide CharsWritten;
    var i, j :| 0 <= i <= j <= |t| && Blank(t[..i], Plain) && Blank(t[j..], Plain) && StringWritten(t[i..j], s, Plain);
    CharsLoose(t[i..j][1..j - i - 1], s);
  }

  lemma MemberLoose(t: Text, m: Entry<Value>)
    requires MemberWritten(t, m, Plain)
    ensures MemberWritten(t, m, Any)
    decreases m, 3
  {
    hide Padded;
    hide KeyWritten;
    var k :| 0 <= k < |t| && t[k] == ':' as int && KeyWritten(t[..k], m.key, Plain) && Padded(t[k + 1..], m.val, Plain);
    KeyLoose(t[..k], m.key);
    PaddedLoose(t[k + 1..], m.val);
  }

  lemma {:induction false} MembersLoose(t: Text, members: seq<Entry<Value>>)
    requires members != [] && MembersWritten(t, members, Plain)
    ensures MembersWritten(t, members, Any)
    decreases members, 4
  {
    hide MemberWritten;
    if |members| == 1 {
      MemberLoose(t, members[0]);
    } else {
      var k :| 0 <= k < |t| && t[k] == ',' as int && MemberWritten(t[..k], members[0], Plain)
        && MembersWritten(t[k + 1..], members[1..], Plain);
      MemberLoose(t[..k], members[0]);
      MembersLoose(t[k + 1..], members[1..]);
    }
  }

  // ----- No plain writing is shorter -----

  predicate AtLeast(t: Text, e: Text) { |t| > |e| || t == e }

  lemma JoinAtLeast(t: Text, k: nat, e: Text, f: Text)
    requires k <= |t| && AtLeast(t[..k], e) && AtLeast(t[k..], f)
    ensures AtLeast(t, e + f)
  {
    assert t == t[..k] + t[k..];
  }

  lemma SplitAtLeast(t: Text, k: nat, e: Text, f: Text)
    requires k < |t| && AtLeast(t[..k], e) && AtLeast(t[k + 1..], f)
    ensures AtLeast(t, e + [t[k]] + f)
  {
    assert t == t[..k] + [t[k]] + t[k + 1..];
  }

  lemma InsideAtLeast(t: Text, e: Text)
    requires |t| >= 2 && AtLeast(t[1..|t| - 1], e)
    ensures AtLeast(t, [t[0]] + e + [t[|t| - 1]])
  {
    assert t == [t[0]] + t[1..|t| - 1] + [t[|t| - 1]];
  }

  lemma HexUnique(x: Code, n: nat)
    requires n < 16
    ensures HexWritten(x, n, Plain) <==> x == HexDigit(n)
  {
  }

  lemma UnicodeUnique(t: Text, u: nat)
    requires UnicodeWritten(t, u, Plain)
    ensures t == Unicode(u)
  {
    hide HexWritten;
    HexUnique(t[2], u / 0x1000);
    HexUnique(t[3], u / 0x100 % 0x10);
    HexUnique(t[4], u / 0x10 % 0x10);
    HexUnique(t[5], u % 0x10);
  }

  lemma CharShortest(t: Text, c: Code)
    requires CharWritten(t, c, Plain)
    ensures AtLeast(t, EscapeChar(c))
  {
    hide Unicode;
    if |t| == 6 {
      UnicodeUnique(t, c);
    } else if |t| == 12 {
      UnicodeUnique(t[..6], HighHalf(c));
      UnicodeUnique(t[6..], LowHalf(c));
      assert t == t[..6] + t[6..];
    } else if |t| == 2 {
      assert t == [t[0], t[1]];
    }
  }

  lemma {:induction false} CharsShortest(t: Text, s: Text)
    requires CharsWritten(t, s, Plain)
    ensures AtLeast(t, Escape(s))
    decreases |s|
  {
    hide CharWritten;
    hide EscapeChar;
    if s != [] {
      var k :| 0 <= k <= |t| && CharWritten(t[..k], s[0], Plain) && CharsWritten(t[k..], s[1..], Plain);
      CharShortest(t[..k], s[0]);
      CharsShortest(t[k..], s[1..]);
      JoinAtLeast(t, k, EscapeChar(s[0]), Escape(s[1..]));
    }
  }

  lemma StringShortest(t: Text, s: Text)
    requires StringWritten(t, s, Plain)
    ensures AtLeast(t, Quote(s))
  {
    CharsShortest(t[1..|t| - 1], s);
    InsideAtLeast(t, Escape(s));
  }

  lemma {:induction false} NumeralUnique(t: Text, n: nat)
    requires NumeralWritten(t, n)
    ensures t == Digits(n)
    decreases n
  {
    if n >= 10 {
      NumeralUnique(t[..|t| - 1], n / 10);
      assert t == t[..|t| - 1] + [t[|t| - 1]];
    }
  }

  lemma IntShortest(t: Text, n: int)
    requires IntWritten(t, n)
    ensures AtLeast(t, IntText(n))
  {
    if n >= 0 && NumeralWritten(t, n) {
      NumeralUnique(t, n);
    } else {
      NumeralUnique(t[1..], -n);
      assert t == [t[0]] + t[1..];
    }
  }

  lemma {:induction false} ValueShortest(t: Text, v: Value)
    requires ValueWritten(t, v, Plain)
    ensures AtLeast(t, Emit(v))
    decreases v, 1
  {
    hide StringWritten;
    match v
    case Null => assert t == Ascii("null");
    case Bool(b) => assert t == if b then Ascii("true") else Ascii("false");
    case Int(n) => IntShortest(t, n);
    case Str(s) => StringShortest(t, s);
    case List(items) =>
      if items != [] { ItemsShortest(t[1..|t| - 1], items); }
      InsideAtLeast(t, EmitItems(items));
    case Dict(members) =>
      if members != [] { MembersShortest(t[1..|t| - 1], members); }
      InsideAtLeast(t, EmitMembers(members));
  }

  lemma {:induction false} PaddedShortest(t: Text, v: Value)
    requires Padded(t, v, Plain)
    ensures AtLeast(t, Emit(v))
    decreases v, 2
  {
    hide ValueWritten;
    var i, j :| 0 <= i <= j <= |t| && Blank(t[..i], Plain) && Blank(t[j..], Plain) && ValueWritten(t[i..j], v, Plain);
    ValueShortest(t[i..j], v);
    assert |t[..i]| == 0 && |t[j..]| == 0 && t[i..j] == t;
  }

  lemma {:induction false} ItemsShortest(t: Text, items: seq<Value>)
    requires items != [] && ItemsWritten(t, items, Plain)
    ensures AtLeast(t, EmitItems(items))
    decreases items, 3
  {
    hide Padded;
    hide Emit;
    if |items| == 1 {
      PaddedShortest(t, items[0]);
    } else {
      var k :| 0 <= k < |t| && t[k] == ',' as int && Padded(t[..k], items[0], Plain)
        && ItemsWritten(t[k + 1..], items[1..], Plain);
      PaddedShortest(t[..k], items[0]);
      ItemsShortest(t[k + 1..], items[1..]);
      SplitAtLeast(t, k, Emit(items[0]), EmitItems(items[1..]));
    }
  }

  lemma KeyShortest(t: Text, s: Text)
    requires KeyWritten(t, s, Plain)
    ensures AtLeast(t, Quote(s))
  {
    hide StringWritten;
    var i, j :| 0 <= i <= j <= |t| && Blank(t[..i], Plain) && Blank(t[j..], Plain) && StringWritten(t[i..j], s, Plain);
    StringShortest(t[i..j], s);
    assert |t[..i]| == 0 && |t[j..]| == 0 && t[i..j] == t;
  }

  lemma MemberShortest(t: Text, m: Entry<Value>)
    requires MemberWritten(t, m, Plain)
    ensures AtLeast(t, EmitMember(m))
    decreases m, 3
  {
    hide Padded;
    hide KeyWritten;
    hide Emit;
    hide Quote;
    var k :| 0 <= k < |t| && t[k] == ':' as int && KeyWritten(t[..k], m.key, Plain) && Padded(t[k + 1..], m.val, Plain);
    KeyShortest(t[..k], m.key);
    PaddedShortest(t[k + 1..], m.val);
    SplitAtLeast(t, k, Quote(m.key), Emit(m.val));
  }

  lemma {:induction false} MembersShortest(t: Text, members: seq<Entry<Value>>)
    requires members != [] && MembersWritten(t, members, Plain)
    ensures AtLeast(t, EmitMembers(members))
    decreases members, 4
  {
    hide MemberWritten;
    hide EmitMember;
    if |members| == 1 {
      MemberShortest(t, members[0]);
    } else {
      var k :| 0 <= k < |t| && t[k] == ',' as int && MemberWritten(t[..k], members[0], Plain)
        && MembersWritten(t[k + 1..], members[1..], Plain);
      MemberShortest(t[..k], members[0]);
      MembersShortest(t[k + 1..], members[1..]);
      SplitAtLeast(t, k, EmitMember(members[0]), EmitMembers(members[1..]));
    }
  }

  /** Main theorem of the printer: its text is a plain writing of the value, and the only one that
      is not longer. */
  lemma EmitShortest(v: Value, t: Text)
    requires WellFormed(v)
    ensures ValueWritten(Emit(v), v, Plain)
    ensures ValueWritten(t, v, Plain) ==> t == Emit(v) || |t| > |Emit(v)|
  {
    hide ValueWritten;
    hide Emit;
    EmitWritten(v);
    if ValueWritten(t, v, Plain) { ValueShortest(t, v); }
  }
}

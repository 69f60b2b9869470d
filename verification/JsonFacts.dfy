/** What the canonical text of a value is: its exact length, its length when embedded as
    a string, and that two values share it exactly when they are the same value. */
module JsonFacts {
  import opened Decimal
  import opened Text
  import opened JsonValue

  /** Neither NUL nor half of a surrogate pair. */
  predicate Whole(s: Text) { forall i :: 0 <= i < |s| ==> s[i] != 0 && !(0xD800 <= s[i] <= 0xDFFF) }

  lemma WholeIsClean(s: Text)
    ensures Whole(s) <==> Clean(s)
  {
    if Clean(s) {
      forall i | 0 <= i < |s| ensures s[i] != 0 && !(0xD800 <= s[i] <= 0xDFFF) { assert s[i] in s; }
    }
  }

  // ----- Length of the canonical text -----

  lemma {:induction false} QuoteLength(s: Text)
    ensures |Quote(s)| == TextSize(s)
  {
    if s != [] {
      var init, last := s[..|s| - 1], s[|s| - 1..];
      assert s == init + last;
      EscapeConcat(init, last);
      QuoteLength(init);
      assert last[1..] == [];
      assert Escape(last) == EscapeChar(s[|s| - 1]) + [];
    }
  }

  lemma {:induction false} EmitLength(v: Value)
    ensures |Emit(v)| == Size(v)
    decreases v, 1
  {
    match v
    case Str(s) => QuoteLength(s);
    case List(items) => EmitItemsLength(items);
    case Dict(members) => EmitMembersLength(members);
    case _ =>
  }

  lemma {:induction false} EmitItemsLength(items: seq<Value>)
    ensures |EmitItems(items)| == SizeItems(items) + Separators(|items|)
    decreases items, 0
  {
    if items != [] {
      EmitLength(items[0]);
      EmitItemsLength(items[1..]);
    }
  }

  lemma {:induction false} EmitMembersLength(members: seq<Entry<Value>>)
    ensures |EmitMembers(members)| == SizeMembers(members) + Separators(|members|)
    decreases members, 0
  {
    if members != [] {
      QuoteLength(members[0].key);
      EmitLength(members[0].val);
      EmitMembersLength(members[1..]);
    }
  }

  // ----- Sorting changes neither number -----

  lemma {:induction false} InsertSums(e: Entry<Value>, s: seq<Entry<Value>>)
    ensures SizeMembers(Insert(e, s)) == SizeMembers([e]) + SizeMembers(s)
    ensures OverheadMembers(Insert(e, s)) == OverheadMembers([e]) + OverheadMembers(s)
  {
    if s != [] && Less(s[0].key, e.key) {
      InsertSums(e, s[1..]);
      assert ([s[0]] + Insert(e, s[1..]))[1..] == Insert(e, s[1..]);
    } else {
      assert ([e] + s)[1..] == s;
    }
  }

  lemma {:induction false} SortSums(s: seq<Entry<Value>>)
    ensures SizeMembers(Sort(s)) == SizeMembers(s)
    ensures OverheadMembers(Sort(s)) == OverheadMembers(s)
  {
    if s != [] {
      SortSums(s[1..]);
      InsertSums(s[0], Sort(s[1..]));
    }
  }

  lemma {:induction false} NormSums(v: Value)
    ensures Size(Norm(v)) == Size(v)
    ensures Overhead(Norm(v)) == Overhead(v)
    decreases v, 1
  {
    match v
    case List(items) => NormItemsSums(items);
    case Dict(members) =>
      NormMembersSums(members);
      SortSums(NormMembers(members));
    case _ =>
  }

  lemma {:induction false} NormItemsSums(items: seq<Value>)
    ensures SizeItems(NormItems(items)) == SizeItems(items)
    ensures OverheadItems(NormItems(items)) == OverheadItems(items)
    decreases items, 0
  {
    if items != [] {
      NormSums(items[0]);
      NormItemsSums(items[1..]);
    }
  }

  lemma {:induction false} NormMembersSums(members: seq<Entry<Value>>)
    ensures SizeMembers(NormMembers(members)) == SizeMembers(members)
    ensures OverheadMembers(NormMembers(members)) == OverheadMembers(members)
    decreases members, 0
  {
    if members != [] {
      NormSums(members[0].val);
      NormMembersSums(members[1..]);
    }
  }

  /** The predicted size is the length of the canonical text, whatever order the
      value's mappings hold their items in. */
  lemma EncodeLength(v: Value)
    ensures |Encode(v)| == Size(v)
  {
    EmitLength(Norm(v));
    NormSums(v);
  }

  // ----- Embedding the canonical text as a JSON string -----

  predicate Printable(t: Text) { forall i :: 0 <= i < |t| ==> 32 <= t[i] <= 126 }

  /** How many characters of a printable text take a backslash when it is quoted. */
  function Marks(t: Text): nat {
    if t == [] then 0 else (if t[0] == QUOTE || t[0] == BACKSLASH then 1 else 0) + Marks(t[1..])
  }

  lemma {:induction false} MarksConcat(a: Text, b: Text)
    ensures Marks(a + b) == Marks(a) + Marks(b)
  {
    if a == [] {
      assert a + b == b;
    } else {
      assert (a + b)[1..] == a[1..] + b;
      MarksConcat(a[1..], b);
    }
  }

  lemma {:induction false} QuotePrintable(t: Text)
    requires Printable(t)
    ensures |Escape(t)| == |t| + Marks(t)
  {
    if t != [] {
      QuotePrintable(t[1..]);
    }
  }

  lemma UnicodeMarks(u: nat)
    requires u <= 0xFFFF
    ensures Printable(Unicode(u)) && Marks(Unicode(u)) == 1
  {
    PlainMarks(Unicode(u)[1..]);
  }

  lemma EscapeCharMarks(c: Code)
    ensures Printable(EscapeChar(c)) && Marks(EscapeChar(c)) == CharOverhead(c)
  {
    if c == QUOTE || c == BACKSLASH || ShortEscape(c).Some? {
      var t := EscapeChar(c);
      assert |t| == 2 && t[1..][1..] == [];
      assert Marks(t) == 1 + Marks(t[1..]) && Marks(t[1..]) == if t[1] == QUOTE || t[1] == BACKSLASH then 1 else 0;
    } else if c < 32 || 127 <= c <= 0xFFFF {
      UnicodeMarks(c);
    } else if c > 0xFFFF {
      UnicodeMarks(HighHalf(c));
      UnicodeMarks(LowHalf(c));
      MarksConcat(Unicode(HighHalf(c)), Unicode(LowHalf(c)));
    } else {
      assert EscapeChar(c)[1..] == [];
    }
  }

  lemma {:induction false} EscapeMarks(s: Text)
    ensures Printable(Escape(s)) && Marks(Escape(s)) + 2 == TextOverhead(s)
  {
    if s != [] {
      var init, last := s[..|s| - 1], s[|s| - 1..];
      assert s == init + last;
      EscapeConcat(init, last);
      EscapeMarks(init);
      assert last[1..] == [];
      assert Escape(last) == EscapeChar(s[|s| - 1]) + [] == EscapeChar(s[|s| - 1]);
      EscapeCharMarks(s[|s| - 1]);
      MarksConcat(Escape(init), Escape(last));
    }
  }

  lemma QuoteMarks(s: Text)
    ensures Printable(Quote(s)) && Marks(Quote(s)) == TextOverhead(s)
  {
    EscapeMarks(s);
    MarksConcat([QUOTE] + Escape(s), [QUOTE]);
    MarksConcat([QUOTE], Escape(s));
    assert Marks([QUOTE]) == 1;
  }

  lemma {:induction false} DigitsMarks(n: nat)
    ensures Printable(Digits(n)) && Marks(Digits(n)) == 0
  {
    if n >= 10 {
      DigitsMarks(n / 10);
      MarksConcat(Digits(n / 10), [48 + n % 10]);
    }
  }

  lemma IntTextMarks(n: int)
    ensures Printable(IntText(n)) && Marks(IntText(n)) == 0
  {
    DigitsMarks(if n < 0 then -n else n);
  }

  lemma LiteralMarks()
    ensures forall s :: s in {"null", "true", "false"} ==> Printable(Ascii(s)) && Marks(Ascii(s)) == 0
  {
    forall s | s in {"null", "true", "false"} ensures Printable(Ascii(s)) && Marks(Ascii(s)) == 0 {
      PlainMarks(Ascii(s));
    }
  }

  lemma {:induction false} PlainMarks(t: Text)
    requires forall i :: 0 <= i < |t| ==> t[i] != QUOTE && t[i] != BACKSLASH
    ensures Marks(t) == 0
  {
    if t != [] {
      PlainMarks(t[1..]);
    }
  }

  lemma Wrapped(open: Code, t: Text, close: Code)
    requires {open, close} <= {LBRACKET, RBRACKET, LBRACE, RBRACE}
    requires Printable(t)
    ensures Printable([open] + t + [close]) && Marks([open] + t + [close]) == Marks(t)
  {
    assert open in {open, close} && close in {open, close};
    MarksConcat([open] + t, [close]);
    MarksConcat([open], t);
    PlainMarks([open]);
    PlainMarks([close]);
  }

  lemma Joined(a: Text, sep: Code, b: Text)
    requires sep == COMMA || sep == COLON
    requires Printable(a) && Printable(b)
    ensures Printable(a + [sep] + b) && Marks(a + [sep] + b) == Marks(a) + Marks(b)
  {
    MarksConcat(a + [sep], b);
    MarksConcat(a, [sep]);
    PlainMarks([sep]);
  }

  lemma {:induction false} EmitMarks(v: Value)
    ensures Printable(Emit(v)) && Marks(Emit(v)) == Overhead(v)
    decreases v, 1
  {
    match v
    case Int(n) => IntTextMarks(n);
    case Str(s) => QuoteMarks(s);
    case List(items) =>
      EmitItemsMarks(items);
      Wrapped(LBRACKET, EmitItems(items), RBRACKET);
    case Dict(members) =>
      EmitMembersMarks(members);
      Wrapped(LBRACE, EmitMembers(members), RBRACE);
    case _ => LiteralMarks();
  }

  lemma {:induction false} EmitItemsMarks(items: seq<Value>)
    ensures Printable(EmitItems(items)) && Marks(EmitItems(items)) == OverheadItems(items)
    decreases items, 0
  {
    if items != [] {
      EmitMarks(items[0]);
      EmitItemsMarks(items[1..]);
      if |items| > 1 { Joined(Emit(items[0]), COMMA, EmitItems(items[1..])); }
    }
  }

  lemma {:induction false} EmitMembersMarks(members: seq<Entry<Value>>)
    ensures Printable(EmitMembers(members)) && Marks(EmitMembers(members)) == OverheadMembers(members)
    decreases members, 0
  {
    if members != [] {
      QuoteMarks(members[0].key);
      EmitMarks(members[0].val);
      Joined(Quote(members[0].key), COLON, Emit(members[0].val));
      EmitMembersMarks(members[1..]);
      if |members| > 1 { Joined(EmitMember(members[0]), COMMA, EmitMembers(members[1..])); }
    }
  }

  /** Embedding the canonical text in another document, as a JSON string, takes the two
      quotes and one more character for every quote and backslash it contains. */
  lemma EmbeddedLength(v: Value)
    ensures |Quote(Encode(v))| == Size(v) + Overhead(v) + 2
    ensures TextSize(Encode(v)) == Size(v) + Overhead(v) + 2
    ensures Clean(Encode(v))
  {
    EmitMarks(Norm(v));
    NormSums(v);
    QuotePrintable(Encode(v));
    EncodeLength(v);
    QuoteLength(Encode(v));
  }

  // ----- Distinct values have distinct canonical texts -----

  lemma {:induction false} NormWellFormed(v: Value)
    requires WellFormed(v)
    ensures WellFormed(Norm(v))
    decreases v
  {
    match v
    case List(items) =>
      forall i | 0 <= i < |items| ensures WellFormed(NormItems(items)[i]) { NormWellFormed(items[i]); }
    case Dict(members) =>
      var normed := NormMembers(members);
      SortSorts(normed);
      SortedDistinct(Sort(normed));
      forall i | 0 <= i < |normed| ensures WellFormed(Sort(normed)[i].val) {
        assert Sort(normed)[i] in normed;
        var k :| 0 <= k < |normed| && normed[k] == Sort(normed)[i];
        NormWellFormed(members[k].val);
      }
    case _ =>
  }

  lemma {:induction false} SameNorm(v: Value, w: Value)
    requires WellFormed(v) && WellFormed(w) && Same(v, w)
    ensures Norm(v) == Norm(w)
    decreases v
  {
    match v
    case List(items) =>
      forall i | 0 <= i < |items| ensures Norm(items[i]) == Norm(w.items[i]) { SameNorm(items[i], w.items[i]); }
      assert NormItems(items) == NormItems(w.items);
    case Dict(members) =>
      var a, b := NormMembers(members), NormMembers(w.members);
      forall i | 0 <= i < |a| ensures a[i] in b {
        var j :| 0 <= j < |w.members| && w.members[j].key == members[i].key && Same(members[i].val, w.members[j].val);
        SameNorm(members[i].val, w.members[j].val);
        assert b[j] == a[i];
      }
      KeysCover(a, b);
      SortSorts(a);
      SortSorts(b);
      SortedUnique(Sort(a), Sort(b));
    case _ =>
  }

  /** A sequence with distinct keys that lies inside another of the same length is all of it. */
  lemma {:induction false} KeysCover<T(!new)>(a: seq<Entry<T>>, b: seq<Entry<T>>)
    requires DistinctKeys(a) && DistinctKeys(b) && |a| == |b|
    requires forall x :: x in a ==> x in b
    ensures forall x :: x in b ==> x in a
  {
    if a != [] {
      assert a[0] in b;
      var j :| 0 <= j < |b| && b[j] == a[0];
      var b' := b[..j] + b[j + 1..];
      forall x | x in a[1..] ensures x in b' {
        var i :| 1 <= i < |a| && a[i] == x;
        assert x in b && x.key != a[0].key;
      }
      KeysCover(a[1..], b');
      forall x | x in b ensures x in a {
        assert x == b[j] || x in b';
      }
    }
  }

  lemma {:induction false} NormSame(v: Value, w: Value)
    requires WellFormed(v) && WellFormed(w) && Norm(v) == Norm(w)
    ensures Same(v, w)
    decreases v
  {
    hide Sort;
    match v
    case List(items) =>
      forall i | 0 <= i < |items| ensures Same(items[i], w.items[i]) {
        assert NormItems(items)[i] == NormItems(w.items)[i];
        NormSame(items[i], w.items[i]);
      }
    case Dict(members) =>
      var a, b := NormMembers(members), NormMembers(w.members);
      assert Sort(a) == Sort(b) && |a| == |b|;
      forall i | 0 <= i < |members|
        ensures exists j ::
                  0 <= j < |w.members| && w.members[j].key == members[i].key && Same(members[i].val, w.members[j].val)
      {
        assert a[i] in a && a[i] in Sort(a) && a[i] in b;
        var j :| 0 <= j < |b| && b[j] == a[i];
        NormSame(members[i].val, w.members[j].val);
        assert w.members[j].key == members[i].key;
      }
    case _ =>
  }

  lemma SameIffNorm(v: Value, w: Value)
    requires WellFormed(v) && WellFormed(w)
    ensures Same(v, w) <==> Norm(v) == Norm(w)
  {
    if Same(v, w) { SameNorm(v, w); }
    if Norm(v) == Norm(w) { NormSame(v, w); }
  }
}

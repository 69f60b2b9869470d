/** How the reader and the size functions grow as text is read from left to right. */
module JsonSums {
  import opened Decimal
  import opened Text
  import opened JsonValue
  import opened JsonDecode

  lemma TextAppend(s: Text, c: Code)
    ensures TextSize(s + [c]) == TextSize(s) + CharSize(c)
    ensures TextOverhead(s + [c]) == TextOverhead(s) + CharOverhead(c)
  {
    assert (s + [c])[..|s|] == s;
  }

  lemma {:induction false} TextMonotone(s: Text, t: Text)
    requires s <= t
    ensures TextSize(s) <= TextSize(t) && TextOverhead(s) <= TextOverhead(t)
    decreases |t|
  {
    if |s| < |t| {
      TextMonotone(s, t[..|t| - 1]);
    } else {
      assert s == t;
    }
  }

  /** Whatever a string turns out to be, it starts with the characters read so far. */
  lemma {:induction false} CharsExtend(t: Text, acc: Text)
    ensures DecodeChars(t, acc).Some? ==> acc <= DecodeChars(t, acc).value.val
    decreases |t|
  {
    if !At(t, QUOTE) {
      var c := DecodeChar(t);
      if c.Some? { CharsExtend(c.value.rest, acc + [c.value.val]); }
    }
  }

  predicate CleanChar(c: Code) { c != 0 && !Surrogate(c) }

  /** Whatever follows, a string with an undecodable or unclean next character is no
      clean string. */
  lemma CharRefused(t: Text, acc: Text)
    requires !At(t, QUOTE)
    requires DecodeChar(t).None? || !CleanChar(DecodeChar(t).value.val)
    ensures DecodeChars(t, acc).Some? ==> !Clean(DecodeChars(t, acc).value.val)
  {
    var c := DecodeChar(t);
    if c.Some? {
      CharsExtend(c.value.rest, acc + [c.value.val]);
      var whole := DecodeChars(t, acc);
      if whole.Some? { assert whole.value.val[|acc|] in whole.value.val; }
    }
  }

  /** Reading one more clean character either keeps the string within a limit or settles
      that the whole string exceeds it. */
  lemma CharStep(t: Text, acc: Text)
    requires !At(t, QUOTE) && DecodeChar(t).Some?
    ensures var c := DecodeChar(t).value;
      && DecodeChars(t, acc) == DecodeChars(c.rest, acc + [c.val])
      && TextSize(acc + [c.val]) == TextSize(acc) + CharSize(c.val)
      && TextOverhead(acc + [c.val]) == TextOverhead(acc) + CharOverhead(c.val)
      && (DecodeChars(t, acc).Some? ==>
            var s := DecodeChars(t, acc).value.val;
            |acc| < |s| && TextSize(acc + [c.val]) <= TextSize(s) && TextOverhead(acc + [c.val]) <= TextOverhead(s))
  {
    var c := DecodeChar(t).value;
    TextAppend(acc, c.val);
    CharsExtend(c.rest, acc + [c.val]);
    if DecodeChars(t, acc).Some? { TextMonotone(acc + [c.val], DecodeChars(t, acc).value.val); }
  }

  /** What a value is, told by its first character. */
  lemma ValueUnfolds(t: Text, u: Text)
    requires u == SkipSpace(t)
    ensures u == [] ==> DecodeValue(t).None?
    ensures At(u, QUOTE) ==>
      var s := DecodeString(u);
      DecodeValue(t) == if s.None? then None else Some(Parsed(Str(s.value.val), s.value.rest))
    ensures At(u, LBRACKET) ==> DecodeValue(t) == DecodeArray(u[1..])
    ensures At(u, LBRACE) ==> DecodeValue(t) == DecodeObject(u[1..])
    ensures u != [] && u[0] !in {QUOTE, LBRACKET, LBRACE} ==>
      var n := TokenLength(u);
      var v := DecodeToken(u[..n]);
      DecodeValue(t) == if v.None? then None else Some(Parsed(v.value, u[n..]))
  {
    if At(u, QUOTE) { assert SkipSpace(u) == u; }
    assert DecodeToken([]).None?;
  }

  // ----- Arrays -----

  lemma {:induction false} ItemsAppend(a: seq<Value>, b: seq<Value>)
    ensures SizeItems(a + b) == SizeItems(a) + SizeItems(b)
    ensures OverheadItems(a + b) == OverheadItems(a) + OverheadItems(b)
  {
    if a == [] {
      assert a + b == b;
    } else {
      assert (a + b)[1..] == a[1..] + b;
      ItemsAppend(a[1..], b);
    }
  }

  lemma ItemAppend(a: seq<Value>, v: Value)
    ensures SizeItems(a + [v]) == SizeItems(a) + Size(v)
    ensures OverheadItems(a + [v]) == OverheadItems(a) + Overhead(v)
  {
    ItemsAppend(a, [v]);
    assert [v][1..] == [];
  }

  lemma ItemsMonotone(a: seq<Value>, b: seq<Value>)
    requires a <= b
    ensures Size(List(a)) <= Size(List(b)) && Overhead(List(a)) <= Overhead(List(b))
  {
    assert b == a + b[|a|..];
    ItemsAppend(a, b[|a|..]);
  }

  /** Whatever an array turns out to hold, it starts with the items read so far and has
      at least one more. */
  lemma {:induction false} ItemsExtend(t: Text, acc: seq<Value>)
    ensures DecodeItems(t, acc).Some? ==> acc < DecodeItems(t, acc).value.val
    decreases |t|
  {
    var v := DecodeValue(t);
    if v.Some? {
      var u := SkipSpace(v.value.rest);
      if At(u, COMMA) { ItemsExtend(u[1..], acc + [v.value.val]); }
    }
  }

  /** Reading one more item: the array holds it next, and is no smaller than the items
      read by then. */
  lemma ItemStep(t: Text, acc: seq<Value>)
    requires DecodeValue(t).Some? && DecodeItems(t, acc).Some?
    ensures var v, items := DecodeValue(t).value.val, DecodeItems(t, acc).value.val;
      && acc + [v] <= items
      && Size(v) <= Size(List(acc + [v])) <= Size(List(items))
      && Overhead(v) <= Overhead(List(acc + [v])) <= Overhead(List(items))
  {
    var v := DecodeValue(t).value;
    var u := SkipSpace(v.rest);
    if At(u, COMMA) { ItemsExtend(u[1..], acc + [v.val]); }
    ItemAppend(acc, v.val);
    ItemsMonotone(acc + [v.val], DecodeItems(t, acc).value.val);
  }

  /** How an array continues behind its next item. */
  lemma ItemsContinue(t: Text, acc: seq<Value>, u: Text)
    requires DecodeValue(t).Some? && u == SkipSpace(DecodeValue(t).value.rest)
    ensures var next := acc + [DecodeValue(t).value.val];
      DecodeItems(t, acc) ==
        if At(u, RBRACKET) then Some(Parsed(next, u[1..]))
        else if At(u, COMMA) then DecodeItems(u[1..], next)
        else None
  {
  }

  // ----- Objects -----

  lemma MembersContinue(t: Text, acc: seq<Entry<Value>>, u: Text)
    requires DecodeMember(t).Some? && u == SkipSpace(DecodeMember(t).value.rest)
    requires DistinctKeys(acc + [DecodeMember(t).value.val])
    ensures var next := acc + [DecodeMember(t).value.val];
      DecodeMembers(t, acc) ==
        if At(u, RBRACE) then Some(Parsed(next, u[1..]))
        else if At(u, COMMA) then DecodeMembers(u[1..], next)
        else None
  {
  }

  lemma {:induction false} MembersAppend(a: seq<Entry<Value>>, b: seq<Entry<Value>>)
    ensures SizeMembers(a + b) == SizeMembers(a) + SizeMembers(b)
    ensures OverheadMembers(a + b) == OverheadMembers(a) + OverheadMembers(b)
  {
    if a == [] {
      assert a + b == b;
    } else {
      assert (a + b)[1..] == a[1..] + b;
      MembersAppend(a[1..], b);
    }
  }

  lemma MemberAppend(a: seq<Entry<Value>>, m: Entry<Value>)
    ensures SizeMembers(a + [m]) == SizeMembers(a) + TextSize(m.key) + 1 + Size(m.val)
    ensures OverheadMembers(a + [m]) == OverheadMembers(a) + TextOverhead(m.key) + Overhead(m.val)
  {
    MembersAppend(a, [m]);
    assert [m][1..] == [];
  }

  lemma MembersMonotone(a: seq<Entry<Value>>, b: seq<Entry<Value>>)
    requires a <= b
    ensures Size(Dict(a)) <= Size(Dict(b)) && Overhead(Dict(a)) <= Overhead(Dict(b))
  {
    assert b == a + b[|a|..];
    MembersAppend(a, b[|a|..]);
  }

  lemma {:induction false} MembersExtend(t: Text, acc: seq<Entry<Value>>)
    ensures DecodeMembers(t, acc).Some? ==> acc < DecodeMembers(t, acc).value.val
    decreases |t|
  {
    var m := DecodeMember(t);
    if m.Some? {
      var u := SkipSpace(m.value.rest);
      if At(u, COMMA) { MembersExtend(u[1..], acc + [m.value.val]); }
    }
  }

  lemma MemberStep(t: Text, acc: seq<Entry<Value>>)
    requires DecodeMember(t).Some? && DecodeMembers(t, acc).Some?
    ensures var m, members := DecodeMember(t).value.val, DecodeMembers(t, acc).value.val;
      && acc + [m] <= members
      && TextSize(m.key) <= Size(Dict(acc + [m])) && TextOverhead(m.key) <= Overhead(Dict(acc + [m]))
      && Size(m.val) <= Size(Dict(acc + [m])) <= Size(Dict(members))
      && Overhead(m.val) <= Overhead(Dict(acc + [m])) <= Overhead(Dict(members))
  {
    var m := DecodeMember(t).value;
    var u := SkipSpace(m.rest);
    if At(u, COMMA) { MembersExtend(u[1..], acc + [m.val]); }
    MemberAppend(acc, m.val);
    MembersMonotone(acc + [m.val], DecodeMembers(t, acc).value.val);
  }

  // ----- Numbers -----

  /** A number written with more than twenty characters is no signed 64-bit integer. */
  lemma LongToken(token: Text)
    requires IsInteger(token) && |token| > 20
    ensures !(-0x8000_0000_0000_0000 <= IntegerValue(token) < 0x8000_0000_0000_0000)
  {
    var d := Magnitude(token);
    LongNumeral(d);
    Pow10Grows(19, |d| - 1);
    Pow10Of19();
  }
}

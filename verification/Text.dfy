/** Text as a sequence of code points, and the ordering under which texts are sorted.
    A text may hold any code point, surrogates included: refusing those is the
    business of the components that read it. */
module Text {

  datatype Option<+T> = None | Some(value: T)

  type Code = c: int | 0 <= c <= 0x10FFFF
  type Text = seq<Code>

  /** The code points of a literal. */
  function Ascii(s: string): (t: Text)
    ensures |t| == |s|
  {
    seq(|s|, i requires 0 <= i < |s| => s[i] as int)
  }

  // ----- Code point (lexicographic) order -----

  predicate Less(a: Text, b: Text) {
    if b == [] then false
    else if a == [] then true
    else a[0] < b[0] || (a[0] == b[0] && Less(a[1..], b[1..]))
  }

  lemma LessIrreflexive(a: Text)
    ensures !Less(a, a)
  {
  }

  lemma {:induction false} LessTransitive(a: Text, b: Text, c: Text)
    requires Less(a, b) && Less(b, c)
    ensures Less(a, c)
  {
    if a != [] && a[0] == b[0] && b[0] == c[0] {
      LessTransitive(a[1..], b[1..], c[1..]);
    }
  }

  lemma {:induction false} LessTotal(a: Text, b: Text)
    ensures Less(a, b) || a == b || Less(b, a)
  {
    if a != [] && b != [] && a[0] == b[0] {
      LessTotal(a[1..], b[1..]);
      assert a == [a[0]] + a[1..] && b == [b[0]] + b[1..];
    }
  }

  /** The order of code points, as `<` on Python strings: the text that ends first, or that has
      the smaller character at the first difference, comes first. */
  lemma {:induction false} LessMeans(a: Text, b: Text)
    ensures Less(a, b) <==>
      || (a <= b && a != b)
      || exists k :: 0 <= k < |a| && k < |b| && a[..k] == b[..k] && a[k] < b[k]
  {
    if a == [] || b == [] {
      assert a == [] && b != [] ==> a <= b;
    } else if a[0] != b[0] {
      assert a[..0] == b[..0];
      forall k | 0 < k < |a| && k < |b| ensures a[..k] != b[..k] { assert a[..k][0] != b[..k][0]; }
    } else {
      LessMeans(a[1..], b[1..]);
      assert a == [a[0]] + a[1..] && b == [b[0]] + b[1..];
      forall k | 0 < k < |a| && k < |b| ensures a[..k] == b[..k] <==> a[1..][..k - 1] == b[1..][..k - 1] {
        assert a[..k] == [a[0]] + a[1..][..k - 1] && b[..k] == [b[0]] + b[1..][..k - 1];
        assert a[1..][..k - 1] == a[..k][1..] && b[1..][..k - 1] == b[..k][1..];
      }
      if a[1..] != b[1..] && !(a[1..] <= b[1..]) && Less(a, b) {
        var k :| 0 <= k < |a[1..]| && k < |b[1..]| && a[1..][..k] == b[1..][..k] && a[1..][k] < b[1..][k];
        assert a[..k + 1] == b[..k + 1] && a[k + 1] < b[k + 1];
      }
      if k :| 0 <= k < |a| && k < |b| && a[..k] == b[..k] && a[k] < b[k] {
        assert a[1..][..k - 1] == b[1..][..k - 1] && a[1..][k - 1] < b[1..][k - 1];
      }
    }
  }

  // ----- Keyed entries, sorted by key -----

  datatype Entry<+T> = Entry(key: Text, val: T)

  predicate DistinctKeys<T>(s: seq<Entry<T>>) {
    forall i, j :: 0 <= i < j < |s| ==> s[i].key != s[j].key
  }

  predicate Sorted<T>(s: seq<Entry<T>>) {
    forall i, j :: 0 <= i < j < |s| ==> Less(s[i].key, s[j].key)
  }

  function Insert<T(!new)>(e: Entry<T>, s: seq<Entry<T>>): (r: seq<Entry<T>>)
    ensures |r| == |s| + 1
    ensures forall x :: x in r <==> x == e || x in s
  {
    if s == [] then [e]
    else if Less(s[0].key, e.key) then [s[0]] + Insert(e, s[1..])
    else [e] + s
  }

  /** The entries in key order, as `sorted(mapping)` visits them. */
  function Sort<T(!new)>(s: seq<Entry<T>>): (r: seq<Entry<T>>)
    ensures |r| == |s|
    ensures forall x :: x in r <==> x in s
  {
    if s == [] then [] else Insert(s[0], Sort(s[1..]))
  }

  lemma {:induction false} InsertSorted<T(!new)>(e: Entry<T>, s: seq<Entry<T>>)
    requires Sorted(s)
    requires forall x :: x in s ==> x.key != e.key
    ensures Sorted(Insert(e, s))
  {
    if s == [] {
    } else if Less(s[0].key, e.key) {
      InsertSorted(e, s[1..]);
      var r := Insert(e, s[1..]);
      forall j | 0 <= j < |r| ensures Less(s[0].key, r[j].key) {
        assert r[j] in r;
        assert r[j] == e || exists k :: 1 <= k < |s| && s[k] == r[j];
      }
    } else {
      assert s[0] in s;
      LessTotal(e.key, s[0].key);
      forall j | 0 <= j < |s| ensures Less(e.key, s[j].key) {
        if j > 0 { LessTransitive(e.key, s[0].key, s[j].key); }
      }
    }
  }

  lemma {:induction false} SortSorts<T(!new)>(s: seq<Entry<T>>)
    requires DistinctKeys(s)
    ensures Sorted(Sort(s))
  {
    if s != [] {
      SortSorts(s[1..]);
      InsertSorted(s[0], Sort(s[1..]));
    }
  }

  lemma SortedDistinct<T>(s: seq<Entry<T>>)
    requires Sorted(s)
    ensures DistinctKeys(s)
  {
    forall i, j | 0 <= i < j < |s| ensures s[i].key != s[j].key {
      LessIrreflexive(s[i].key);
    }
  }

  /** A strictly sorted sequence is determined by its elements. */
  lemma {:induction false} SortedUnique<T(!new)>(s: seq<Entry<T>>, t: seq<Entry<T>>)
    requires Sorted(s) && Sorted(t)
    requires forall x :: x in s <==> x in t
    ensures s == t
  {
    assert t != [] ==> t[0] in s;
    assert s != [] ==> s[0] in t;
    if s != [] {
      SortedHead(s, t);
      SortedTail(s);
      SortedTail(t);
      SortedUnique(s[1..], t[1..]);
      assert s == [s[0]] + s[1..] && t == [t[0]] + t[1..];
    }
  }

  lemma SortedHead<T(!new)>(s: seq<Entry<T>>, t: seq<Entry<T>>)
    requires Sorted(s) && Sorted(t) && s != [] && t != []
    requires forall x :: x in s <==> x in t
    ensures s[0] == t[0]
  {
    assert s[0] in t && t[0] in s;
    var i :| 0 <= i < |t| && t[i] == s[0];
    var j :| 0 <= j < |s| && s[j] == t[0];
    if i > 0 && j > 0 {
      LessTransitive(s[0].key, t[0].key, s[0].key);
      LessIrreflexive(s[0].key);
    }
  }

  lemma SortedTail<T(!new)>(s: seq<Entry<T>>)
    requires Sorted(s) && s != []
    ensures Sorted(s[1..])
    ensures forall x :: x in s[1..] <==> x in s && x != s[0]
  {
    forall x ensures x in s[1..] <==> x in s && x != s[0] {
      if x in s[1..] {
        var i :| 0 <= i < |s[1..]| && s[1..][i] == x;
        LessIrreflexive(s[0].key);
        assert s[i + 1] == x;
      }
    }
  }
}

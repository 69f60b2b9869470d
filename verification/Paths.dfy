/** Absolute paths as texts, and containment between them. */
module Paths {
  import opened Text

  const SLASH: Code := 0x2F

  function StripSlashes(path: Text): Text {
    if path != [] && path[|path| - 1] == SLASH then StripSlashes(path[..|path| - 1]) else path
  }

  function Prefix(path: Text): Text { StripSlashes(path) + [SLASH] }

  /** `path` is `parent` or lies below it. */
  predicate IsWithin(path: Text, parent: Text) { path == parent || Prefix(parent) <= path }

  /** What containment needs of a canonical path: absolute, and no slash at the end but the root's own. */
  predicate Canonical(path: Text) { path == [SLASH] || (path != [] && path[0] == SLASH && path[|path| - 1] != SLASH) }

  function Slashes(path: Text): nat {
    if path == [] then 0 else Slashes(path[..|path| - 1]) + if path[|path| - 1] == SLASH then 1 else 0
  }

  /** The number of parts a path splits into at its slashes. */
  function Depth(path: Text): nat { Slashes(path) + 1 }

  lemma {:induction false} SlashesOfPrefix(prefix: Text, path: Text)
    requires prefix <= path
    ensures Slashes(prefix) <= Slashes(path)
  {
    if prefix != path { SlashesOfPrefix(prefix, path[..|path| - 1]); }
  }

  /** Anything properly below a canonical path other than the root is deeper than it. The root
      splits into as many parts as its own entries do. */
  lemma BelowIsDeeper(path: Text, parent: Text)
    requires Canonical(parent) && path != parent && IsWithin(path, parent)
    ensures Depth(parent) < Depth(path) || (parent == [SLASH] && Depth(parent) <= Depth(path))
  {
    SlashesOfPrefix(Prefix(parent), path);
    if parent == [SLASH] {
      assert StripSlashes(parent) == [] by { assert parent[..0] == []; }
      assert Prefix(parent) == parent;
    } else {
      assert Prefix(parent)[..|parent|] == parent;
    }
  }

  /** The root is as deep as an entry directly below it, so depth alone does not order them. */
  lemma RootIsNotShallower()
    ensures exists path ::
              Canonical(path) && path != [SLASH] && IsWithin(path, [SLASH]) && Depth(path) == Depth([SLASH])
  {
    var path: Text := [SLASH, 0x61];
    assert StripSlashes([SLASH]) == [] by { assert [SLASH][..0] == []; }
    assert path[..1] == [SLASH] && [SLASH][..0] == [];
    assert Prefix([SLASH]) == [SLASH];
    assert Depth(path) == Depth([SLASH]);
    assert IsWithin(path, [SLASH]);
  }

  // ----- Paths by their names -----

  /** One more character: a slash starts a part, any other extends the last one. */
  function Extend(parts: seq<Text>, c: Code): (r: seq<Text>)
    requires parts != []
    ensures |r| > 0
  {
    var last := |parts| - 1;
    if c == '/' as int then parts + [[]] else parts[..last] + [parts[last] + [c]]
  }

  lemma ExtendTail(a: seq<Text>, b: seq<Text>, c: Code)
    requires b != []
    ensures Extend(a + b, c) == a + Extend(b, c)
  {
    assert (a + b)[..|a + b| - 1] == a + b[..|b| - 1];
  }

  /** The parts between the slashes, as `split("/")` yields them. */
  function Split(path: Text): (parts: seq<Text>)
    ensures |parts| > 0
    decreases |path|
  {
    if path == [] then [[]] else Extend(Split(path[..|path| - 1]), path[|path| - 1])
  }

  /** The names on the way from the root to a canonical path; the root has none. */
  function Names(path: Text): seq<Text> {
    if path == ['/' as int] then [] else Split(path)[1..]
  }

  lemma {:induction false} DepthCounts(path: Text)
    ensures Depth(path) == |Split(path)|
  {
    if path != [] { DepthCounts(path[..|path| - 1]); }
  }

  lemma {:induction false} SplitJoined(a: Text, b: Text)
    ensures Split(a + [SLASH] + b) == Split(a) + Split(b)
    decreases |b|
  {
    hide Extend;
    var t := a + [SLASH] + b;
    if b == [] {
      assert t[..|t| - 1] == a && t[|t| - 1] == SLASH;
      assert Extend(Split(a), SLASH) == Split(a) + [[]] by { SlashExtends(Split(a)); }
    } else {
      var init, last := b[..|b| - 1], b[|b| - 1];
      SplitJoined(a, init);
      assert t[..|t| - 1] == a + [SLASH] + init && t[|t| - 1] == last;
      ExtendTail(Split(a), Split(init), last);
    }
  }

  lemma SlashExtends(parts: seq<Text>)
    requires parts != []
    ensures Extend(parts, SLASH) == parts + [[]]
  {
  }

  lemma {:induction false} SplitUnique(a: Text, b: Text)
    requires Split(a) == Split(b)
    ensures a == b
    decreases |a|
  {
    if a != [] && b != [] {
      var x, y := a[|a| - 1], b[|b| - 1];
      LastPart(a);
      LastPart(b);
      var p, q := Split(a[..|a| - 1]), Split(b[..|b| - 1]);
      if x == SLASH {
        assert p == Split(a)[..|Split(a)| - 1] == q;
      } else {
        var l := Split(a)[|Split(a)| - 1];
        assert p == Split(a)[..|Split(a)| - 1] + [l[..|l| - 1]] == q;
      }
      SplitUnique(a[..|a| - 1], b[..|b| - 1]);
      assert a == a[..|a| - 1] + [x] && b == b[..|b| - 1] + [y];
    } else {
      if a != [] { LastPart(a); SplitEmpty(a); }
      if b != [] { LastPart(b); SplitEmpty(b); }
    }
  }

  /** The last part ends in the path's last character, and is empty behind a slash. */
  lemma LastPart(path: Text)
    requires path != []
    ensures var l, last := Split(path)[|Split(path)| - 1], path[|path| - 1];
      if last == SLASH then l == [] && |Split(path)| > 1 else l != [] && l[|l| - 1] == last
  {
  }

  lemma SplitEmpty(path: Text)
    requires path != []
    ensures Split(path) != [[]]
  {
    LastPart(path);
  }

  /** Some prefix of the path in front of a slash has the first `n` parts. */
  lemma {:induction false} SplitPrefix(path: Text, n: nat) returns (k: nat)
    requires 0 < n < |Split(path)|
    ensures k < |path| && path[k] == SLASH && Split(path[..k]) == Split(path)[..n]
    decreases |path|
  {
    var init := path[..|path| - 1];
    if path[|path| - 1] == SLASH && n == |Split(init)| {
      k := |path| - 1;
      assert Split(path)[..n] == Split(init);
    } else {
      k := SplitPrefix(init, n);
      assert init[..k] == path[..k];
      assert Split(path)[..n] == Split(init)[..n];
    }
  }

  /** Containment of canonical paths is that of their names: one path is within another exactly when
      its names begin with all of the other's. */
  lemma WithinMeans(path: Text, parent: Text)
    requires Canonical(path) && Canonical(parent)
    ensures IsWithin(path, parent) <==> Names(parent) <= Names(path)
  {
    if parent == [SLASH] {
      assert StripSlashes(parent) == [] by { assert parent[..0] == []; }
    } else if path == [SLASH] {
      TwoParts(parent);
    } else {
      TwoParts(parent);
      TwoParts(path);
      assert Prefix(parent) == parent + [SLASH];
      if Prefix(parent) <= path { BelowExtends(path, parent); }
      if Names(parent) <= Names(path) { ExtensionIsBelow(path, parent); }
    }
  }

  lemma BelowExtends(path: Text, parent: Text)
    requires parent + [SLASH] <= path
    ensures Split(parent) <= Split(path)
  {
    var rest := path[|parent| + 1..];
    assert path == parent + [SLASH] + rest;
    SplitJoined(parent, rest);
  }

  lemma ExtensionIsBelow(path: Text, parent: Text)
    requires |Split(parent)| > 1 && |Split(path)| > 1 && Split(parent)[0] == Split(path)[0]
    requires Split(parent)[1..] <= Split(path)[1..]
    ensures path == parent || parent + [SLASH] <= path
  {
    hide Split;
    assert Split(parent) == [Split(parent)[0]] + Split(parent)[1..];
    assert Split(path) == [Split(path)[0]] + Split(path)[1..];
    assert Split(path)[..|Split(parent)|] == Split(parent);
    if |Split(parent)| == |Split(path)| {
      SplitUnique(path, parent);
    } else {
      var k := SplitPrefix(path, |Split(parent)|);
      SplitUnique(path[..k], parent);
    }
  }

  /** An absolute path that is not the root has an empty first part and at least one name. */
  lemma TwoParts(path: Text)
    requires Canonical(path) && path != [SLASH]
    ensures |Split(path)| > 1 && Split(path)[0] == []
  {
    assert path == [] + [SLASH] + path[1..];
    SplitJoined([], path[1..]);
    assert Split([]) == [[]];
  }
}

/** Order-preserving, first-occurrence deduplication of sequences: the shape
    shared by the grouping loop (an id is never appended to a bucket twice)
    and by the attribute merge (a value is never appended to the merged list
    twice). */
module Sequences {

  predicate NoDuplicates<T(==,!new)>(s: seq<T>) {
    forall i, j :: 0 <= i < j < |s| ==> s[i] != s[j]
  }

  /** The index of the first occurrence of `x` in `s`. */
  function FirstIndex<T(==,!new)>(s: seq<T>, x: T): (i: nat)
    requires x in s
    ensures i < |s| && s[i] == x && x !in s[..i]
  {
    if s[0] == x then 0 else 1 + FirstIndex(s[1..], x)
  }

  /** A position holding `x` with no `x` before it is the first index of `x`. */
  lemma {:induction false} FirstIndexUnique<T(!new)>(s: seq<T>, x: T, i: nat)
    requires i < |s| && s[i] == x && x !in s[..i]
    ensures FirstIndex(s, x) == i
  {
  }

  /** `s` with every element after its first occurrence dropped: the list a
      loop builds by appending each element unless it is already present. */
  function Distinct<T(==)>(s: seq<T>): seq<T>
  {
    if s == [] then []
    else
      var init := Distinct(s[..|s| - 1]);
      if s[|s| - 1] in init then init else init + [s[|s| - 1]]
  }

  /** Deduplication neither loses nor invents elements, and leaves none twice. */
  lemma {:induction false} DistinctSpec<T(!new)>(s: seq<T>)
    ensures NoDuplicates(Distinct(s))
    ensures forall x :: x in Distinct(s) <==> x in s
    ensures |Distinct(s)| <= |s|
  {
    if s != [] {
      var init := s[..|s| - 1];
      assert s == init + [s[|s| - 1]];
      DistinctSpec(init);
    }
  }

  /** One step of the appending loop. */
  lemma {:induction false} DistinctSnoc<T(!new)>(s: seq<T>, x: T)
    ensures Distinct(s + [x]) == if x in s then Distinct(s) else Distinct(s) + [x]
  {
    var t := s + [x];
    assert t[..|t| - 1] == s && t[|t| - 1] == x;
    assert Distinct(t) == if x in Distinct(s) then Distinct(s) else Distinct(s) + [x];
    DistinctSpec(s);
  }

  /** The elements of `b` that do not occur in `a`, in their order in `b`. */
  function Without<T(==)>(b: seq<T>, a: seq<T>): seq<T>
  {
    if b == [] then []
    else Without(b[..|b| - 1], a) + if b[|b| - 1] in a then [] else [b[|b| - 1]]
  }

  lemma {:induction false} WithoutSpec<T(!new)>(b: seq<T>, a: seq<T>)
    ensures forall x :: x in Without(b, a) <==> x in b && x !in a
  {
    if b != [] {
      var init := b[..|b| - 1];
      assert b == init + [b[|b| - 1]];
      WithoutSpec(init, a);
    }
  }

  /** Deduplicating a concatenation keeps every first occurrence from `a`
      ahead of the new elements contributed by `b`. */
  lemma {:induction false} DistinctConcat<T(!new)>(a: seq<T>, b: seq<T>)
    ensures Distinct(a + b) == Distinct(a) + Distinct(Without(b, a))
  {
    if b == [] {
      assert a + b == a;
      assert Without(b, a) == [];
    } else {
      var init, y := b[..|b| - 1], b[|b| - 1];
      assert b == init + [y];
      assert a + b == (a + init) + [y];
      DistinctConcat(a, init);
      if y in a || y in init {
        SnocSeen(a, init, y);
      } else {
        SnocNew(a, init, y);
        SnocAssoc(Distinct(a), Distinct(Without(init, a)), y);
      }
    }
  }

  lemma SnocAssoc<T>(d: seq<T>, w: seq<T>, y: T)
    ensures (d + w) + [y] == d + (w + [y])
  {
  }

  /** One more element of `b` that `a + init` already holds changes neither side. */
  lemma SnocSeen<T(!new)>(a: seq<T>, init: seq<T>, y: T)
    requires y in a || y in init
    ensures Distinct((a + init) + [y]) == Distinct(a + init)
    ensures Distinct(Without(init + [y], a)) == Distinct(Without(init, a))
  {
    assert y in a + init;
    DistinctSnoc(a + init, y);
    WithoutSnoc(init, a, y);
    if y !in a {
      DistinctWithoutSnoc(init, a, y);
    }
  }

  /** One more element of `b` that is new to `a + init` is appended on both sides. */
  lemma SnocNew<T(!new)>(a: seq<T>, init: seq<T>, y: T)
    requires y !in a && y !in init
    ensures Distinct((a + init) + [y]) == Distinct(a + init) + [y]
    ensures Distinct(Without(init + [y], a)) == Distinct(Without(init, a)) + [y]
  {
    assert y !in a + init;
    DistinctSnoc(a + init, y);
    WithoutSnoc(init, a, y);
    DistinctWithoutSnoc(init, a, y);
  }

  /** `Without` grows by `y` exactly when `y` is not in `a`. */
  lemma WithoutSnoc<T(!new)>(init: seq<T>, a: seq<T>, y: T)
    ensures Without(init + [y], a) == if y in a then Without(init, a) else Without(init, a) + [y]
  {
    var b := init + [y];
    assert b[..|b| - 1] == init;
  }

  /** Deduplicating `Without` after appending a `y` that is not in `a`. */
  lemma DistinctWithoutSnoc<T(!new)>(init: seq<T>, a: seq<T>, y: T)
    requires y !in a
    ensures Distinct(Without(init, a) + [y]) ==
      if y in init then Distinct(Without(init, a)) else Distinct(Without(init, a)) + [y]
  {
    DistinctSnoc(Without(init, a), y);
    WithoutSpec(init, a);
  }

  /** Deduplication keeps elements in the order of their first occurrence. */
  lemma {:induction false} DistinctKeepsOrder<T(!new)>(s: seq<T>, i: nat, j: nat)
    requires i < j < |Distinct(s)|
    ensures Distinct(s)[i] in s && Distinct(s)[j] in s
    ensures FirstIndex(s, Distinct(s)[i]) < FirstIndex(s, Distinct(s)[j])
  {
    DistinctSpec(s);
    var init, y := s[..|s| - 1], s[|s| - 1];
    assert s == init + [y];
    DistinctSnoc(init, y);
    DistinctSpec(init);
    var r := Distinct(s);
    assert r[i] in init by {
      assert r[i] in Distinct(init) by {
        assert i < |Distinct(init)|;
        assert r[i] == Distinct(init)[i];
      }
    }
    PrefixFirstIndex(s, |s| - 1, r[i]);
    if j < |Distinct(init)| {
      assert r[j] == Distinct(init)[j];
      PrefixFirstIndex(s, |s| - 1, r[j]);
      DistinctKeepsOrder(init, i, j);
    } else {
      assert r[j] == y && y !in init;
      assert s[..|s| - 1] == init;
      FirstIndexUnique(s, y, |s| - 1);
    }
  }

  /** Extending a prefix by the next element. */
  lemma PrefixSnoc<T>(s: seq<T>, j: nat)
    requires j < |s|
    ensures s[..j] + [s[j]] == s[..j + 1]
  {
  }

  /** Extending the prefix of the second part of a concatenation by its next element. */
  lemma ConcatPrefixSnoc<T>(a: seq<T>, s: seq<T>, k: nat)
    requires k < |s|
    ensures a + s[..k + 1] == (a + s[..k]) + [s[k]]
  {
    assert s[..k + 1] == s[..k] + [s[k]];
  }

  /** An element found in a prefix has the same first index there. */
  lemma {:induction false} PrefixFirstIndex<T(!new)>(s: seq<T>, n: nat, x: T)
    requires n <= |s| && x in s[..n]
    ensures FirstIndex(s[..n], x) == FirstIndex(s, x)
  {
    var f := FirstIndex(s[..n], x);
    assert s[..n][..f] == s[..f];
    FirstIndexUnique(s, x, f);
  }
}

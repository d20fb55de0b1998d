/** The attribute merge engine: folding the attribute list of an absorbed
    edge into the attribute list of the surviving edge. */
module Attributes {
  import opened Sequences

  datatype Option<+T> = None | Some(value: T)

  /** A JSON scalar, the element type of an attribute value. */
  datatype Scalar = Null | Bool(b: bool) | Int(i: int) | Real(r: real) | Str(s: string)

  /** Python truthiness of a scalar: `None`, `False`, zero and the empty
      string are falsy. */
  predicate Truthy(x: Scalar) {
    match x
    case Null => false
    case Bool(b) => b
    case Int(i) => i != 0
    case Real(r) => r != 0.0
    case Str(s) => s != ""
  }

  /** An attribute value: a scalar or a list of scalars. */
  datatype Value = Single(x: Scalar) | List(xs: seq<Scalar>)

  /** The elements of a value, a scalar counting as a one-element list. */
  function Elements(v: Value): seq<Scalar> {
    match v
    case Single(x) => [x]
    case List(xs) => xs
  }

  /** One edge attribute: name `n`, value `v` and the optional datatype tag `d`. */
  datatype Attribute = Attribute(name: string, value: Value, dataType: Option<string>)

  /** The scalar datatype tags that have a `list_of_` counterpart. */
  const ScalarTags: set<string> := {"boolean", "double", "integer", "long", "string"}

  /** The datatype tag of an attribute once it holds several values. */
  function Promote(d: Option<string>): (r: Option<string>)
    ensures d.None? ==> r == Some("list_of_string")
    ensures d.Some? && d.value in ScalarTags ==> r == Some("list_of_" + d.value)
    ensures d.Some? && d.value !in ScalarTags ==> r == d
    ensures r.Some? && r.value !in ScalarTags
  {
    match d
    case None => Some("list_of_string")
    case Some(t) =>
      assert "list_of_" + "boolean" == "list_of_boolean" && "list_of_" + "double" == "list_of_double";
      assert "list_of_" + "integer" == "list_of_integer" && "list_of_" + "long" == "list_of_long";
      assert "list_of_" + "string" == "list_of_string";
      if t == "boolean" then Some("list_of_boolean")
      else if t == "double" then Some("list_of_double")
      else if t == "integer" then Some("list_of_integer")
      else if t == "long" then Some("list_of_long")
      else if t == "string" then Some("list_of_string")
      else d
  }

  /** Promoting twice is promoting once: a list tag is never widened again. */
  lemma PromoteIdempotent(d: Option<string>)
    ensures Promote(Promote(d)) == Promote(d)
  {
  }

  /** The truthy elements of `s`, in order. */
  function TruthyOnly(s: seq<Scalar>): seq<Scalar> {
    if s == [] then []
    else TruthyOnly(s[..|s| - 1]) + if Truthy(s[|s| - 1]) then [s[|s| - 1]] else []
  }

  lemma {:induction false} TruthyOnlySpec(s: seq<Scalar>)
    ensures forall x :: x in TruthyOnly(s) <==> x in s && Truthy(x)
  {
    if s != [] {
      assert s == s[..|s| - 1] + [s[|s| - 1]];
      TruthyOnlySpec(s[..|s| - 1]);
    }
  }

  lemma TruthyOnlyConcat(a: seq<Scalar>, b: seq<Scalar>)
    ensures TruthyOnly(a + b) == TruthyOnly(a) + TruthyOnly(b)
  {
    if b == [] {
      assert a + b == a;
    } else {
      var init := b[..|b| - 1];
      assert (a + b)[..|a + b| - 1] == a + init;
      TruthyOnlyConcat(a, init);
    }
  }

  /** The value list a merge builds from the survivor's value `v1` and the
      absorbed value `v2`. */
  function MergedValues(v1: Value, v2: Value): seq<Scalar> {
    Distinct(TruthyOnly(Elements(v1) + Elements(v2)))
  }

  /** The merged list holds each truthy element of either value exactly once,
      and nothing else. */
  lemma MergedValuesContents(v1: Value, v2: Value)
    ensures NoDuplicates(MergedValues(v1, v2))
    ensures forall x :: x in MergedValues(v1, v2) <==>
      (x in Elements(v1) || x in Elements(v2)) && Truthy(x)
  {
    DistinctSpec(TruthyOnly(Elements(v1) + Elements(v2)));
    TruthyOnlySpec(Elements(v1) + Elements(v2));
  }

  /** The merged list is the survivor's own deduplicated truthy elements,
      followed by the absorbed value's truthy elements that are new, each run
      in its original order. */
  lemma MergedValuesOrder(v1: Value, v2: Value)
    ensures MergedValues(v1, v2) ==
      Distinct(TruthyOnly(Elements(v1))) + Distinct(Without(TruthyOnly(Elements(v2)), TruthyOnly(Elements(v1))))
  {
    TruthyOnlyConcat(Elements(v1), Elements(v2));
    DistinctConcat(TruthyOnly(Elements(v1)), TruthyOnly(Elements(v2)));
  }

  /** Appends to `acc`, in order, every truthy element of `xs` not already
      present; `acc` is the list built so far from the elements `seen`. */
  method AppendNew(acc: seq<Scalar>, xs: seq<Scalar>, ghost seen: seq<Scalar>) returns (r: seq<Scalar>)
    requires acc == Distinct(TruthyOnly(seen))
    ensures r == Distinct(TruthyOnly(seen + xs))
  {
    r := acc;
    assert seen + xs[..0] == seen;
    for k := 0 to |xs|
      invariant r == Distinct(TruthyOnly(seen + xs[..k]))
    {
      var x := xs[k];
      ConcatPrefixSnoc(seen, xs, k);
      KeepNewTruthy(seen + xs[..k], x);
      if x !in r && Truthy(x) {
        r := r + [x];
      }
    }
    assert xs[..|xs|] == xs;
  }

  /** One step of the appending loop: `x` is added exactly when it is truthy
      and not yet in the list. */
  lemma KeepNewTruthy(s: seq<Scalar>, x: Scalar)
    ensures Distinct(TruthyOnly(s + [x])) ==
      if Truthy(x) && x !in Distinct(TruthyOnly(s)) then Distinct(TruthyOnly(s)) + [x]
      else Distinct(TruthyOnly(s))
  {
    var t := s + [x];
    assert t[..|t| - 1] == s;
    var before := TruthyOnly(s);
    assert TruthyOnly(t) == before + if Truthy(x) then [x] else [];
    DistinctSpec(before);
    if Truthy(x) {
      DistinctSnoc(before, x);
    } else {
      assert before + [] == before;
    }
  }

  /** Builds the merged value list: the survivor's elements first, then the
      absorbed value's, skipping falsy elements and repeats. */
  method MergeValues(v1: Value, v2: Value) returns (merged: seq<Scalar>)
    ensures merged == MergedValues(v1, v2)
  {
    assert Distinct(TruthyOnly([])) == [];
    merged := AppendNew([], Elements(v1), []);
    assert [] + Elements(v1) == Elements(v1);
    merged := AppendNew(merged, Elements(v2), Elements(v1));
  }

  /** The index of the first attribute in `attrs` named `name`, if any. */
  function FirstNamed(attrs: seq<Attribute>, name: string): (r: Option<nat>)
    ensures r.Some? ==> r.value < |attrs| && attrs[r.value].name == name
    ensures r.Some? ==> forall i :: 0 <= i < r.value ==> attrs[i].name != name
    ensures r.None? ==> forall i :: 0 <= i < |attrs| ==> attrs[i].name != name
  {
    if attrs == [] then None
    else if attrs[0].name == name then Some(0)
    else match FirstNamed(attrs[1..], name)
      case None => None
      case Some(j) => Some(j + 1)
  }

  /** Scans `attrs` for the first attribute named `name`. */
  method FindByName(attrs: seq<Attribute>, name: string) returns (found: bool, j: nat)
    ensures found <==> FirstNamed(attrs, name).Some?
    ensures found ==> FirstNamed(attrs, name) == Some(j)
  {
    found, j := false, 0;
    while j < |attrs|
      invariant j <= |attrs|
      invariant forall i :: 0 <= i < j ==> attrs[i].name != name
    {
      if attrs[j].name == name {
        found := true;
        return;
      }
      j := j + 1;
    }
  }

  /** The survivor attribute `a` after merging it with the absorbed list `other`. */
  function MergeOne(a: Attribute, other: seq<Attribute>): (r: Attribute)
    ensures r.name == a.name
    ensures FirstNamed(other, a.name).None? ==> r == a
    ensures FirstNamed(other, a.name).Some? && other[FirstNamed(other, a.name).value].value == a.value ==> r == a
  {
    match FirstNamed(other, a.name)
    case None => a
    case Some(j) =>
      if a.value == other[j].value then a
      else a.(value := List(MergedValues(a.value, other[j].value)), dataType := Promote(a.dataType))
  }

  /** Merges the absorbed list `other` into one survivor attribute `a`: a
      same-named attribute with a different value turns `a` into the list of
      both values, its datatype tag promoted to the list tag. */
  method MergeAttribute(a: Attribute, other: seq<Attribute>) returns (b: Attribute)
    ensures b == MergeOne(a, other)
  {
    b := a;
    var found, j := FindByName(other, a.name);
    if !found {
      return;
    }
    if a.value == other[j].value {
      return;
    }
    var d := Promote(a.dataType);
    var merged := MergeValues(a.value, other[j].value);
    b := a.(value := List(merged), dataType := d);
  }

  /** The survivor list `attrs` after merging in the absorbed list `other`. */
  function MergedList(attrs: seq<Attribute>, other: seq<Attribute>): (r: seq<Attribute>)
    ensures |r| == |attrs|
    ensures forall i :: 0 <= i < |r| ==> r[i].name == attrs[i].name
  {
    seq(|attrs|, i requires 0 <= i < |attrs| => MergeOne(attrs[i], other))
  }

  /** Merges the absorbed list `other` into the survivor list `attrs` in place. */
  method MergeAttributes(attrs: array<Attribute>, other: seq<Attribute>)
    modifies attrs
    ensures attrs[..] == MergedList(old(attrs[..]), other)
  {
    ghost var orig := attrs[..];
    for k := 0 to attrs.Length
      invariant forall i :: 0 <= i < k ==> attrs[i] == MergeOne(orig[i], other)
      invariant forall i :: k <= i < attrs.Length ==> attrs[i] == orig[i]
    {
      var b := MergeAttribute(attrs[k], other);
      ghost var before := attrs[..];
      attrs[k] := b;
      assert attrs[..] == before[k := b];
    }
  }

  /** The survivor list after merging each absorbed list in turn, first to last. */
  function FoldMerge(attrs: seq<Attribute>, others: seq<seq<Attribute>>): seq<Attribute> {
    if others == [] then attrs
    else MergedList(FoldMerge(attrs, others[..|others| - 1]), others[|others| - 1])
  }

  /** However many lists are folded in, the survivor keeps its attributes:
      same count, same names, same order; absorbed-only names are dropped. */
  lemma {:induction false} FoldMergeKeepsNames(attrs: seq<Attribute>, others: seq<seq<Attribute>>)
    ensures |FoldMerge(attrs, others)| == |attrs|
    ensures forall i :: 0 <= i < |attrs| ==> FoldMerge(attrs, others)[i].name == attrs[i].name
  {
    if others != [] {
      FoldMergeKeepsNames(attrs, others[..|others| - 1]);
    }
  }

  /** The truthy elements of `false` and `true`, without repeats, are `[true]`. */
  lemma FalseTrueMerged()
    ensures MergedValues(Single(Bool(false)), Single(Bool(true))) == [Bool(true)]
  {
    var both := [Bool(false), Bool(true)];
    assert Elements(Single(Bool(false))) + Elements(Single(Bool(true))) == both;
    assert TruthyOnly(both) == [Bool(true)] by {
      assert both[..1] == [Bool(false)];
      assert TruthyOnly([Bool(false)]) == [] by { assert [Bool(false)][..0] == []; }
    }
    assert Distinct([Bool(true)]) == [Bool(true)] by { assert [Bool(true)][..0] == []; }
  }

  /** Merging `x = false` with `x = true` keeps only `true`: a falsy value
      is never carried into a merged list. */
  lemma MergeDropsFalse()
    ensures MergeOne(Attribute("f", Single(Bool(false)), Some("boolean")), [Attribute("f", Single(Bool(true)), Some("boolean"))])
         == Attribute("f", List([Bool(true)]), Some("list_of_boolean"))
  {
    var a := Attribute("f", Single(Bool(false)), Some("boolean"));
    var other := [Attribute("f", Single(Bool(true)), Some("boolean"))];
    assert FirstNamed(other, "f") == Some(0);
    assert a.value != other[0].value;
    assert Promote(a.dataType) == Some("list_of_boolean");
    FalseTrueMerged();
  }

  /** The values `5` and `7` rebuild to `[5, 7]`. */
  lemma FiveSevenMerged()
    ensures MergedValues(Single(Int(5)), Single(Int(7))) == [Int(5), Int(7)]
  {
    var both := [Int(5), Int(7)];
    assert Elements(Single(Int(5))) + Elements(Single(Int(7))) == both;
    assert TruthyOnly(both) == both by {
      assert both[..1] == [Int(5)];
      assert TruthyOnly([Int(5)]) == [Int(5)] by { assert [Int(5)][..0] == []; }
    }
    assert Distinct(both) == both by {
      assert both[..1] == [Int(5)];
      assert Distinct([Int(5)]) == [Int(5)] by { assert [Int(5)][..0] == []; }
    }
  }

  /** Merging `x = 5 (integer)` with `x = 7 (integer)` widens it to the list [5, 7]. */
  lemma MergeDistinctScalars()
    ensures MergeOne(Attribute("w", Single(Int(5)), Some("integer")), [Attribute("w", Single(Int(7)), Some("integer"))])
         == Attribute("w", List([Int(5), Int(7)]), Some("list_of_integer"))
  {
    var a := Attribute("w", Single(Int(5)), Some("integer"));
    var other := [Attribute("w", Single(Int(7)), Some("integer"))];
    assert FirstNamed(other, "w") == Some(0);
    assert a.value != other[0].value;
    assert Promote(a.dataType) == Some("list_of_integer");
    FiveSevenMerged();
  }
}

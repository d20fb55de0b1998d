/** The graph rewriter: one surviving edge per bucket, carrying its bucket's
    merged attributes, replacing the network's edges and edge attributes. */
module Collapse {
  import opened Sequences
  import opened Attributes
  import opened Grouping

  /** Every bucket holds at least its opening edge. */
  lemma AllBucketsNonEmpty(ids: seq<EdgeId>, edges: map<EdgeId, Edge>)
    requires Known(ids, edges)
    ensures forall k :: k in BucketKeys(ids, edges) ==> |Members(ids, edges, k)| > 0
  {
  }

  /** The surviving id of each bucket, in bucket order: its first-arrived member. */
  function Survivors(ids: seq<EdgeId>, edges: map<EdgeId, Edge>): seq<EdgeId>
    requires Known(ids, edges)
  {
    var keys := BucketKeys(ids, edges);
    AllBucketsNonEmpty(ids, edges);
    seq(|keys|, j requires 0 <= j < |keys| => Members(ids, edges, keys[j])[0])
  }

  /** One survivor per bucket: as many survivors as buckets, no id twice,
      each a visited edge whose own orientation is its bucket's key. */
  lemma SurvivorsSpec(ids: seq<EdgeId>, edges: map<EdgeId, Edge>)
    requires Known(ids, edges)
    ensures |Survivors(ids, edges)| == |BucketKeys(ids, edges)|
    ensures NoDuplicates(Survivors(ids, edges))
    ensures forall j :: 0 <= j < |Survivors(ids, edges)| ==>
      Survivors(ids, edges)[j] in ids && Survivors(ids, edges)[j] in edges &&
      KeyOfId(edges, Survivors(ids, edges)[j]) == BucketKeys(ids, edges)[j]
  {
    var keys, s := BucketKeys(ids, edges), Survivors(ids, edges);
    BucketKeysSpec(ids, edges);
    forall j | 0 <= j < |s|
      ensures s[j] in ids && s[j] in edges && KeyOfId(edges, s[j]) == keys[j]
    {
      FirstOrientationWins(ids, edges, keys[j]);
      MembersSpec(ids, edges, keys[j]);
      assert s[j] in Members(ids, edges, keys[j]);
    }
    forall i, j | 0 <= i < j < |s| ensures s[i] != s[j] {
      Partition(ids, edges, s[i]);
      FirstOrientationWins(ids, edges, keys[i]);
      FirstOrientationWins(ids, edges, keys[j]);
      assert s[i] in Members(ids, edges, keys[i]);
      assert s[j] in Members(ids, edges, keys[j]);
      assert keys[i] != keys[j];
    }
  }

  /** No two edges of `ids` are the same edge up to direction. */
  predicate Apart(ids: seq<EdgeId>, edges: map<EdgeId, Edge>)
    requires Known(ids, edges)
  {
    forall i, j :: 0 <= i < j < |ids| ==> !SameUndirected(KeyOfId(edges, ids[i]), KeyOfId(edges, ids[j]))
  }

  /** Without duplicate edges every edge opens its own bucket, alone. */
  lemma {:induction false} ApartIsFixed(ids: seq<EdgeId>, edges: map<EdgeId, Edge>)
    requires Known(ids, edges) && Apart(ids, edges)
    ensures |BucketKeys(ids, edges)| == |ids|
    ensures forall i :: 0 <= i < |ids| ==>
      BucketKeys(ids, edges)[i] == KeyOfId(edges, ids[i]) && Members(ids, edges, KeyOfId(edges, ids[i])) == [ids[i]]
  {
    if ids != [] {
      var init, x := ids[..|ids| - 1], ids[|ids| - 1];
      assert ids == init + [x];
      ApartIsFixed(init, edges);
      var kx := KeyOfId(edges, x);
      forall i | 0 <= i < |init| ensures !SameUndirected(KeyOfId(edges, init[i]), kx) {
        assert ids[i] == init[i];
      }
      NoneMatching(init, edges, kx);
      BucketKeysStep(init, edges, x);
      forall i | 0 <= i < |ids|
        ensures BucketKeys(ids, edges)[i] == KeyOfId(edges, ids[i])
        ensures Members(ids, edges, KeyOfId(edges, ids[i])) == [ids[i]]
      {
        MembersSnoc(init, edges, x, KeyOfId(edges, ids[i]));
      }
    }
  }

  /** The survivors are pairwise apart: no two are the same edge up to direction. */
  lemma SurvivorsApart(ids: seq<EdgeId>, edges: map<EdgeId, Edge>)
    requires Known(ids, edges)
    ensures Known(Survivors(ids, edges), edges)
    ensures Apart(Survivors(ids, edges), edges)
  {
    var s, keys := Survivors(ids, edges), BucketKeys(ids, edges);
    SurvivorsSpec(ids, edges);
    BucketKeysSpec(ids, edges);
    forall i, j | 0 <= i < j < |s| ensures !SameUndirected(KeyOfId(edges, s[i]), KeyOfId(edges, s[j])) {
      assert keys[i] != keys[j];
    }
  }

  /** Collapsing a collapsed edge list changes nothing: the survivors are
      pairwise apart, so each is alone in its bucket and survives again,
      keeping whatever attribute list it carries. */
  lemma CollapseIdempotent(ids: seq<EdgeId>, edges: map<EdgeId, Edge>, attrs: map<EdgeId, seq<Attribute>>)
    requires Known(ids, edges)
    ensures Known(Survivors(ids, edges), edges)
    ensures Survivors(Survivors(ids, edges), edges) == Survivors(ids, edges)
    ensures forall k :: k in BucketKeys(Survivors(ids, edges), edges) ==>
      |Members(Survivors(ids, edges), edges, k)| == 1
    ensures Attributed(edges, attrs) ==>
      var s := Survivors(ids, edges);
      |SurvivorLists(s, edges, attrs)| == |s| &&
      forall j :: 0 <= j < |s| ==> s[j] in attrs && SurvivorLists(s, edges, attrs)[j] == attrs[s[j]]
  {
    var s := Survivors(ids, edges);
    SurvivorsApart(ids, edges);
    ApartIsFixed(s, edges);
    var t := Survivors(s, edges);
    forall j | 0 <= j < |s| ensures t[j] == s[j] {
      assert t[j] == Members(s, edges, BucketKeys(s, edges)[j])[0];
    }
    forall k | k in BucketKeys(s, edges) ensures |Members(s, edges, k)| == 1 {
      var j :| 0 <= j < |s| && BucketKeys(s, edges)[j] == k;
    }
    if Attributed(edges, attrs) {
      SurvivorListsShape(s, edges, attrs);
      forall j | 0 <= j < |s| ensures |Members(s, edges, BucketKeys(s, edges)[j])| == 1 {
        assert BucketKeys(s, edges)[j] in BucketKeys(s, edges);
      }
    }
  }

  /** Three edges: 1 and its reverse 2 between nodes 10 and 20, and 3 from 10 to 30. */
  const SampleEdges: map<EdgeId, Edge> := map[1 := Edge(10, "pp", 20), 2 := Edge(20, "pp", 10), 3 := Edge(10, "pp", 30)]

  /** The sample edges fall into two buckets, keyed by the first-seen orientations. */
  lemma SampleBuckets()
    ensures BucketKeys([1, 2, 3], SampleEdges) == [EdgeKey(10, "pp", 20), EdgeKey(10, "pp", 30)]
  {
    var k1, k3 := EdgeKey(10, "pp", 20), EdgeKey(10, "pp", 30);
    SampleSecondBucketKeys();
    assert [1, 2, 3][..2] == [1, 2];
    assert KeyOfId(SampleEdges, 3) == k3 && k3 != k1 && k3.Reversed() != k1;
  }

  /** The first edge opens a bucket. */
  lemma SampleFirstBucketKeys()
    ensures BucketKeys([1], SampleEdges) == [EdgeKey(10, "pp", 20)]
  {
    assert [1][..0] == [];
    assert KeyOfId(SampleEdges, 1) == EdgeKey(10, "pp", 20);
  }

  /** The reverse of the first edge opens no bucket of its own. */
  lemma SampleSecondBucketKeys()
    ensures BucketKeys([1, 2], SampleEdges) == [EdgeKey(10, "pp", 20)]
  {
    SampleFirstBucketKeys();
    assert [1, 2][..1] == [1];
    assert KeyOfId(SampleEdges, 2) == EdgeKey(10, "pp", 20).Reversed();
  }

  /** The first edge is alone in its bucket before the others arrive. */
  lemma SampleFirstEdgeOpens()
    ensures Members([1], SampleEdges, EdgeKey(10, "pp", 20)) == [1]
  {
    var k := EdgeKey(10, "pp", 20);
    NoneMatching([], SampleEdges, k);
    MembersSnoc([], SampleEdges, 1, k);
    assert [] + [1] == [1];
  }

  /** The reverse of the first edge joins its bucket, after it. */
  lemma SampleReverseJoins()
    ensures Members([1, 2], SampleEdges, EdgeKey(10, "pp", 20)) == [1, 2]
  {
    var k := EdgeKey(10, "pp", 20);
    SampleFirstEdgeOpens();
    MembersSnoc([1], SampleEdges, 2, k);
    assert [1] + [2] == [1, 2];
    assert SameUndirected(KeyOfId(SampleEdges, 2), k);
  }

  /** The first bucket holds the edge and its reverse, in arrival order. */
  lemma SampleFirstBucket()
    ensures Members([1, 2, 3], SampleEdges, EdgeKey(10, "pp", 20)) == [1, 2]
  {
    var k := EdgeKey(10, "pp", 20);
    SampleReverseJoins();
    assert !SameUndirected(KeyOfId(SampleEdges, 3), k);
    MembersSnoc([1, 2], SampleEdges, 3, k);
    assert [1, 2] + [3] == [1, 2, 3];
  }

  /** The second bucket holds only the edge to node 30. */
  lemma SampleSecondBucket()
    ensures Members([1, 2, 3], SampleEdges, EdgeKey(10, "pp", 30)) == [3]
  {
    var k := EdgeKey(10, "pp", 30);
    assert Members([1, 2], SampleEdges, k) == [] by {
      NoneMatching([1, 2], SampleEdges, k);
    }
    MembersSnoc([1, 2], SampleEdges, 3, k);
    assert [1, 2] + [3] == [1, 2, 3];
    assert SameUndirected(KeyOfId(SampleEdges, 3), k);
  }

  /** An edge and its reverse collapse into the first of them; an edge to
      a third node stays apart. */
  lemma OppositeEdgesCollapse()
    ensures Survivors([1, 2, 3], SampleEdges) == [1, 3]
  {
    SampleBuckets();
    SampleFirstBucket();
    SampleSecondBucket();
    var s := Survivors([1, 2, 3], SampleEdges);
    assert |s| == 2 && s[0] == 1 && s[1] == 3;
  }

  /** Apartness depends only on the records of the ids themselves. */
  lemma ApartSameRecords(xs: seq<EdgeId>, es: map<EdgeId, Edge>, es': map<EdgeId, Edge>)
    requires Known(xs, es) && Known(xs, es') && Apart(xs, es)
    requires forall i :: 0 <= i < |xs| ==> es'[xs[i]] == es[xs[i]]
    ensures Apart(xs, es')
  {
    forall i, j | 0 <= i < j < |xs| ensures !SameUndirected(KeyOfId(es', xs[i]), KeyOfId(es', xs[j])) {
      assert KeyOfId(es', xs[i]) == KeyOfId(es, xs[i]) && KeyOfId(es', xs[j]) == KeyOfId(es, xs[j]);
    }
  }

  /** Edges that are pairwise apart all survive, each alone in its bucket. */
  lemma ApartSurvive(xs: seq<EdgeId>, es: map<EdgeId, Edge>)
    requires Known(xs, es) && Apart(xs, es)
    ensures Survivors(xs, es) == xs
    ensures forall j :: 0 <= j < |xs| ==> |Members(xs, es, BucketKeys(xs, es)[j])| == 1
  {
    ApartIsFixed(xs, es);
    var t := Survivors(xs, es);
    forall j | 0 <= j < |xs| ensures t[j] == xs[j] {
      assert t[j] == Members(xs, es, BucketKeys(xs, es)[j])[0];
    }
  }

  /** Collapsing the result of a collapse again changes nothing: every
      rewritten edge survives, in the same order, with the attribute list it
      was given. */
  lemma RecollapseKeepsLists(ids: seq<EdgeId>, es: map<EdgeId, Edge>, attrs: map<EdgeId, seq<Attribute>>,
                             newIds: seq<EdgeId>, newEdges: map<EdgeId, Edge>, newAttrs: map<EdgeId, seq<Attribute>>)
    requires Known(ids, es) && Attributed(es, attrs)
    requires newIds == Survivors(ids, es)
    requires Rewritten(newIds, newEdges, newAttrs, es, SurvivorLists(ids, es, attrs))
    ensures Known(newIds, newEdges) && Attributed(newEdges, newAttrs)
    ensures Survivors(newIds, newEdges) == newIds
    ensures |SurvivorLists(newIds, newEdges, newAttrs)| == |newIds|
    ensures forall j :: 0 <= j < |newIds| ==> SurvivorLists(newIds, newEdges, newAttrs)[j] == newAttrs[newIds[j]]
  {
    SurvivorsApart(ids, es);
    forall i | 0 <= i < |newIds| ensures newIds[i] in newEdges && newEdges[newIds[i]] == es[newIds[i]] {
      assert newIds[i] in newIds;
    }
    ApartSameRecords(newIds, es, newEdges);
    ApartSurvive(newIds, newEdges);
    SurvivorListsShape(newIds, newEdges, newAttrs);
  }

  /** The attribute lists of `ids`, in order. */
  function ListsOf(ids: seq<EdgeId>, attrs: map<EdgeId, seq<Attribute>>): seq<seq<Attribute>>
    requires forall i :: 0 <= i < |ids| ==> ids[i] in attrs
  {
    seq(|ids|, i requires 0 <= i < |ids| => attrs[ids[i]])
  }

  /** Every edge record has an attribute entry. */
  predicate Attributed(edges: map<EdgeId, Edge>, attrs: map<EdgeId, seq<Attribute>>) {
    forall id :: id in edges ==> id in attrs
  }

  /** The attribute list the survivor of bucket `k` ends with: its own list
      with the absorbed members' lists merged in, in arrival order. */
  function SurvivorAttributes(ids: seq<EdgeId>, edges: map<EdgeId, Edge>, attrs: map<EdgeId, seq<Attribute>>, k: EdgeKey): seq<Attribute>
    requires Known(ids, edges) && Attributed(edges, attrs) && k in BucketKeys(ids, edges)
  {
    var bucket := Members(ids, edges, k);
    FirstOrientationWins(ids, edges, k);
    MembersSpec(ids, edges, k);
    assert forall i :: 0 <= i < |bucket| ==> bucket[i] in bucket;
    FoldMerge(attrs[bucket[0]], ListsOf(bucket[1..], attrs))
  }

  /** A survivor keeps its own attributes, by name and in order, whatever
      was merged into it; a survivor alone in its bucket keeps its list
      unchanged. */
  lemma SurvivorAttributesShape(ids: seq<EdgeId>, edges: map<EdgeId, Edge>, attrs: map<EdgeId, seq<Attribute>>, k: EdgeKey)
    requires Known(ids, edges) && Attributed(edges, attrs) && k in BucketKeys(ids, edges)
    ensures |Members(ids, edges, k)| > 0 && Members(ids, edges, k)[0] in attrs
    ensures var own := attrs[Members(ids, edges, k)[0]];
      |SurvivorAttributes(ids, edges, attrs, k)| == |own| &&
      (forall i :: 0 <= i < |own| ==> SurvivorAttributes(ids, edges, attrs, k)[i].name == own[i].name) &&
      (|Members(ids, edges, k)| == 1 ==> SurvivorAttributes(ids, edges, attrs, k) == own)
  {
    var bucket := Members(ids, edges, k);
    FirstOrientationWins(ids, edges, k);
    MembersSpec(ids, edges, k);
    assert forall i :: 0 <= i < |bucket| ==> bucket[i] in bucket;
    assert |bucket| == 1 ==> ListsOf(bucket[1..], attrs) == [];
    FoldMergeKeepsNames(attrs[bucket[0]], ListsOf(bucket[1..], attrs));
  }

  /** Folds the attribute lists of the `absorbed` ids, in order, into a
      working copy of the survivor's list `own`, merging in place. */
  method MergeBucket(own: seq<Attribute>, absorbed: seq<EdgeId>, attrs: map<EdgeId, seq<Attribute>>)
    returns (merged: seq<Attribute>)
    requires forall i :: 0 <= i < |absorbed| ==> absorbed[i] in attrs
    ensures merged == FoldMerge(own, ListsOf(absorbed, attrs))
  {
    var list := new Attribute[|own|](i requires 0 <= i < |own| => own[i]);
    assert list[..] == own;
    for a := 0 to |absorbed|
      invariant list[..] == FoldMerge(own, ListsOf(absorbed[..a], attrs))
    {
      MergeAttributes(list, attrs[absorbed[a]]);
      assert ListsOf(absorbed[..a + 1], attrs) == ListsOf(absorbed[..a], attrs) + [attrs[absorbed[a]]];
    }
    assert absorbed[..|absorbed|] == absorbed;
    merged := list[..];
  }

  /** Collapses one bucket: its survivor, the survivor's edge record, and
      the survivor's attribute list with the other members' lists merged in. */
  method CollapseBucket(ids: seq<EdgeId>, es: map<EdgeId, Edge>, attrs: map<EdgeId, seq<Attribute>>, k: EdgeKey, bucket: seq<EdgeId>)
    returns (survivor: EdgeId, edge: Edge, list: seq<Attribute>)
    requires Known(ids, es) && Attributed(es, attrs) && k in BucketKeys(ids, es)
    requires bucket == Members(ids, es, k)
    ensures |bucket| > 0 && survivor == bucket[0]
    ensures survivor in es && edge == es[survivor]
    ensures list == SurvivorAttributes(ids, es, attrs, k)
  {
    AllBucketsNonEmpty(ids, es);
    MembersSpec(ids, es, k);
    assert forall i :: 0 <= i < |bucket| ==> bucket[i] in bucket;
    survivor := bucket[0];
    edge := es[survivor];
    var absorbed := bucket[1..];
    if |absorbed| == 0 {
      assert ListsOf(absorbed, attrs) == [];
      list := attrs[survivor];
    } else {
      list := MergeBucket(attrs[survivor], absorbed, attrs);
    }
  }

  /** `newIds` lists the keys of `newEdges` and of `newAttrs`; each id keeps
      its record from `es` and carries the attribute list at its position
      in `lists`. */
  ghost predicate Rewritten(newIds: seq<EdgeId>, newEdges: map<EdgeId, Edge>, newAttrs: map<EdgeId, seq<Attribute>>,
                            es: map<EdgeId, Edge>, lists: seq<seq<Attribute>>)
  {
    |newIds| == |lists| &&
    (forall id :: id in newEdges <==> id in newIds) &&
    (forall id :: id in newAttrs <==> id in newIds) &&
    (forall id :: id in newEdges ==> id in es && newEdges[id] == es[id]) &&
    (forall i :: 0 <= i < |newIds| ==> newIds[i] in newAttrs && newAttrs[newIds[i]] == lists[i])
  }

  /** One step of the rewriting loop: appending a new id with its record
      and the next list of `lists`. */
  lemma RewriteStep(newIds: seq<EdgeId>, newEdges: map<EdgeId, Edge>, newAttrs: map<EdgeId, seq<Attribute>>,
                    es: map<EdgeId, Edge>, lists: seq<seq<Attribute>>, j: nat, id: EdgeId)
    requires j < |lists| && Rewritten(newIds, newEdges, newAttrs, es, lists[..j])
    requires id !in newIds && id in es
    ensures Rewritten(newIds + [id], newEdges[id := es[id]], newAttrs[id := lists[j]], es, lists[..j + 1])
  {
    var ids', attrs' := newIds + [id], newAttrs[id := lists[j]];
    forall i | 0 <= i < |ids'|
      ensures ids'[i] in attrs' && attrs'[ids'[i]] == lists[..j + 1][i]
    {
      if i < |newIds| {
        assert ids'[i] == newIds[i] != id;
      }
    }
  }

  /** The attribute list each bucket's survivor ends with, in bucket order. */
  function SurvivorLists(ids: seq<EdgeId>, es: map<EdgeId, Edge>, attrs: map<EdgeId, seq<Attribute>>): seq<seq<Attribute>>
    requires Known(ids, es) && Attributed(es, attrs)
  {
    var keys := BucketKeys(ids, es);
    seq(|keys|, j requires 0 <= j < |keys| => SurvivorAttributes(ids, es, attrs, keys[j]))
  }

  /** Survivor by survivor, the final lists keep the survivor's own list:
      its length and its names in order; a survivor alone in its bucket
      keeps its list unchanged. */
  lemma SurvivorListsShape(ids: seq<EdgeId>, es: map<EdgeId, Edge>, attrs: map<EdgeId, seq<Attribute>>)
    requires Known(ids, es) && Attributed(es, attrs)
    ensures var s, r := Survivors(ids, es), SurvivorLists(ids, es, attrs);
      |r| == |s| &&
      forall j :: 0 <= j < |r| ==>
        s[j] in attrs && |r[j]| == |attrs[s[j]]| &&
        (forall i :: 0 <= i < |r[j]| ==> r[j][i].name == attrs[s[j]][i].name) &&
        (|Members(ids, es, BucketKeys(ids, es)[j])| == 1 ==> r[j] == attrs[s[j]])
  {
    var keys, s := BucketKeys(ids, es), Survivors(ids, es);
    var r: seq<seq<Attribute>> := SurvivorLists(ids, es, attrs);
    SurvivorsSpec(ids, es);
    forall j | 0 <= j < |r|
      ensures s[j] in attrs && |r[j]| == |attrs[s[j]]|
      ensures forall i :: 0 <= i < |r[j]| ==> r[j][i].name == attrs[s[j]][i].name
      ensures |Members(ids, es, keys[j])| == 1 ==> r[j] == attrs[s[j]]
    {
      SurvivorAttributesShape(ids, es, attrs, keys[j]);
    }
  }

  /** The rewritten edge list: one entry per bucket, in bucket order, keyed
      by the bucket's survivor, holding the survivor's unchanged edge record
      and its merged attribute list. */
  method RewriteEdges(ids: seq<EdgeId>, es: map<EdgeId, Edge>, attrs: map<EdgeId, seq<Attribute>>)
    returns (newIds: seq<EdgeId>, newEdges: map<EdgeId, Edge>, newAttrs: map<EdgeId, seq<Attribute>>)
    requires Known(ids, es) && Attributed(es, attrs)
    ensures newIds == Survivors(ids, es)
    ensures Rewritten(newIds, newEdges, newAttrs, es, SurvivorLists(ids, es, attrs))
  {
    var keys, buckets := GroupEdges(ids, es);
    ghost var survivors, lists := Survivors(ids, es), SurvivorLists(ids, es, attrs);
    SurvivorsSpec(ids, es);
    newIds, newEdges, newAttrs := [], map[], map[];
    for j := 0 to |keys|
      invariant newIds == survivors[..j]
      invariant Rewritten(newIds, newEdges, newAttrs, es, lists[..j])
    {
      var survivor, edge, list := CollapseBucket(ids, es, attrs, keys[j], buckets[keys[j]]);
      assert survivor == survivors[j] && list == lists[j];
      assert survivor !in newIds by {
        assert forall i :: 0 <= i < j ==> survivors[i] != survivors[j];
      }
      RewriteStep(newIds, newEdges, newAttrs, es, lists, j, survivor);
      newEdges := newEdges[survivor := edge];
      newAttrs := newAttrs[survivor := list];
      PrefixSnoc(survivors, j);
      newIds := newIds + [survivor];
    }
    assert survivors[..|keys|] == survivors && lists[..|keys|] == lists;
  }

  /** A network's edges, in insertion order, and their attribute lists. */
  class Network {
    var edgeIds: seq<EdgeId>
    var edges: map<EdgeId, Edge>
    var edgeAttributes: map<EdgeId, seq<Attribute>>

    /** `edgeIds` lists the keys of `edges`, each once, in insertion order. */
    ghost predicate Valid()
      reads this
    {
      NoDuplicates(edgeIds) && Known(edgeIds, edges) && forall id :: id in edges ==> id in edgeIds
    }

    constructor (ids: seq<EdgeId>, es: map<EdgeId, Edge>, attrs: map<EdgeId, seq<Attribute>>)
      requires NoDuplicates(ids) && (forall id :: id in es <==> id in ids)
      ensures Valid()
      ensures edgeIds == ids && edges == es && edgeAttributes == attrs
    {
      forall i | 0 <= i < |ids| ensures ids[i] in es {
        var x := ids[i];
        assert x in ids;
        assert x in ids ==> x in es;
      }
      edgeIds, edges, edgeAttributes := ids, es, attrs;
    }

    /** Collapses every bucket of duplicate edges into its first-arrived edge
        and replaces the edges and the edge attributes with the result. */
    method CollapseEdges()
      requires Valid() && Attributed(edges, edgeAttributes)
      modifies this
      ensures Valid()
      ensures Known(old(edgeIds), old(edges)) && Attributed(old(edges), old(edgeAttributes))
      ensures edgeIds == Survivors(old(edgeIds), old(edges))
      ensures Rewritten(edgeIds, edges, edgeAttributes, old(edges), SurvivorLists(old(edgeIds), old(edges), old(edgeAttributes)))
    {
      var ids, es := edgeIds, edges;
      edgeIds, edges, edgeAttributes := RewriteEdges(edgeIds, edges, edgeAttributes);
      SurvivorsSpec(ids, es);
    }
  }
}

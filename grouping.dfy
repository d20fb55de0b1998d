/** The edge grouping engine: bucketing edges by `(source, interaction,
    target)` with direction ignored, the first-seen orientation naming the
    bucket. */
module Grouping {
  import opened Sequences

  type NodeId = int
  type EdgeId = int

  /** An edge record: source `s`, interaction `i`, target `t`. */
  datatype Edge = Edge(source: NodeId, interaction: string, target: NodeId)

  /** A bucket key, the tuple `(s, i, t)`. */
  datatype EdgeKey = EdgeKey(source: NodeId, interaction: string, target: NodeId) {
    /** The key of the same edge read in the other direction, `(t, i, s)`. */
    function Reversed(): EdgeKey {
      EdgeKey(target, interaction, source)
    }
  }

  function KeyOf(e: Edge): EdgeKey {
    EdgeKey(e.source, e.interaction, e.target)
  }

  /** The two keys name the same edge once direction is ignored. */
  predicate SameUndirected(k1: EdgeKey, k2: EdgeKey) {
    k1 == k2 || k1 == k2.Reversed()
  }

  /** Every id visited has an edge record. */
  predicate Known(ids: seq<EdgeId>, edges: map<EdgeId, Edge>) {
    forall i :: 0 <= i < |ids| ==> ids[i] in edges
  }

  /** The key of the edge with id `id`. */
  function KeyOfId(edges: map<EdgeId, Edge>, id: EdgeId): EdgeKey
    requires id in edges
  {
    KeyOf(edges[id])
  }

  /** The bucket keys, in insertion order, after visiting `ids`: an edge
      opens a bucket under its own key when neither its key nor its reversed
      key names a bucket yet. */
  function BucketKeys(ids: seq<EdgeId>, edges: map<EdgeId, Edge>): (r: seq<EdgeKey>)
    requires Known(ids, edges)
    ensures |r| <= |ids|
    ensures |ids| > 0 ==> |r| > 0
  {
    if ids == [] then []
    else
      var keys := BucketKeys(ids[..|ids| - 1], edges);
      var k := KeyOfId(edges, ids[|ids| - 1]);
      if k in keys || k.Reversed() in keys then keys else keys + [k]
  }

  /** The ids among `ids` whose edge is `k` in either direction, in arrival order. */
  function Matching(ids: seq<EdgeId>, edges: map<EdgeId, Edge>, k: EdgeKey): seq<EdgeId>
    requires Known(ids, edges)
  {
    if ids == [] then []
    else
      var id := ids[|ids| - 1];
      Matching(ids[..|ids| - 1], edges, k) + if SameUndirected(KeyOfId(edges, id), k) then [id] else []
  }

  /** The members of bucket `k`: the matching ids, each once, in arrival order. */
  function Members(ids: seq<EdgeId>, edges: map<EdgeId, Edge>, k: EdgeKey): seq<EdgeId>
    requires Known(ids, edges)
  {
    Distinct(Matching(ids, edges, k))
  }

  lemma {:induction false} MatchingSpec(ids: seq<EdgeId>, edges: map<EdgeId, Edge>, k: EdgeKey)
    requires Known(ids, edges)
    ensures forall id :: id in Matching(ids, edges, k) <==>
      id in ids && id in edges && SameUndirected(KeyOfId(edges, id), k)
  {
    if ids != [] {
      var init := ids[..|ids| - 1];
      assert ids == init + [ids[|ids| - 1]];
      MatchingSpec(init, edges, k);
    }
  }

  /** An id belongs to bucket `k` exactly when it was visited and its edge is
      `k` in either direction. */
  lemma MembersSpec(ids: seq<EdgeId>, edges: map<EdgeId, Edge>, k: EdgeKey)
    requires Known(ids, edges)
    ensures NoDuplicates(Members(ids, edges, k))
    ensures forall id :: id in Members(ids, edges, k) <==>
      id in ids && id in edges && SameUndirected(KeyOfId(edges, id), k)
  {
    MatchingSpec(ids, edges, k);
    DistinctSpec(Matching(ids, edges, k));
  }

  /** Visiting one more id extends bucket `k` by that id when it matches and
      is not a member yet. */
  lemma MembersSnoc(ids: seq<EdgeId>, edges: map<EdgeId, Edge>, id: EdgeId, k: EdgeKey)
    requires Known(ids, edges) && id in edges
    ensures Known(ids + [id], edges)
    ensures Members(ids + [id], edges, k) ==
      if SameUndirected(KeyOfId(edges, id), k) && id !in Members(ids, edges, k)
      then Members(ids, edges, k) + [id]
      else Members(ids, edges, k)
  {
    var t := ids + [id];
    assert forall i :: 0 <= i < |ids| ==> t[i] == ids[i];
    assert t[..|t| - 1] == ids;
    var m := Matching(ids, edges, k);
    DistinctSpec(m);
    if SameUndirected(KeyOfId(edges, id), k) {
      DistinctSnoc(m, id);
    } else {
      assert m + [] == m;
    }
  }

  /** The bucket keys are pairwise apart even with direction ignored, every
      visited edge is named by a bucket key in one direction or the other,
      and every bucket key is the key of some visited edge. */
  lemma {:induction false} BucketKeysSpec(ids: seq<EdgeId>, edges: map<EdgeId, Edge>)
    requires Known(ids, edges)
    ensures NoDuplicates(BucketKeys(ids, edges))
    ensures forall k1, k2 ::
      k1 in BucketKeys(ids, edges) && k2 in BucketKeys(ids, edges) && SameUndirected(k1, k2) ==> k1 == k2
    ensures forall i :: 0 <= i < |ids| ==>
      KeyOfId(edges, ids[i]) in BucketKeys(ids, edges) || KeyOfId(edges, ids[i]).Reversed() in BucketKeys(ids, edges)
    ensures forall k :: k in BucketKeys(ids, edges) ==> exists i :: 0 <= i < |ids| && KeyOfId(edges, ids[i]) == k
  {
    if ids != [] {
      var init := ids[..|ids| - 1];
      BucketKeysSpec(init, edges);
      var keys := BucketKeys(init, edges);
      var k := KeyOfId(edges, ids[|ids| - 1]);
      assert forall i :: 0 <= i < |init| ==> ids[i] == init[i];
      if !(k in keys || k.Reversed() in keys) {
        assert BucketKeys(ids, edges) == keys + [k];
        assert forall k1 :: k1 in keys ==> !SameUndirected(k, k1) && !SameUndirected(k1, k);
      }
    }
  }

  /** One visit of the grouping loop on the bucket keys: the visited edge
      keeps the keys when its key or its reversed key is one of them, and
      opens a bucket under its own key otherwise; the keys stay pairwise apart
      and no earlier edge matches a newly opened key. */
  lemma BucketKeysStep(ids: seq<EdgeId>, edges: map<EdgeId, Edge>, id: EdgeId)
    requires Known(ids, edges) && id in edges
    ensures Known(ids + [id], edges)
    ensures var keys, k := BucketKeys(ids, edges), KeyOfId(edges, id);
      BucketKeys(ids + [id], edges) == if k in keys || k.Reversed() in keys then keys else keys + [k]
    ensures forall k1, k2 ::
      k1 in BucketKeys(ids, edges) && k2 in BucketKeys(ids, edges) && SameUndirected(k1, k2) ==> k1 == k2
    ensures var keys, k := BucketKeys(ids, edges), KeyOfId(edges, id);
      k !in keys && k.Reversed() !in keys ==> Members(ids, edges, k) == []
  {
    var t := ids + [id];
    assert forall i :: 0 <= i < |ids| ==> t[i] == ids[i];
    assert t[..|t| - 1] == ids;
    BucketKeysSpec(ids, edges);
    var keys, k := BucketKeys(ids, edges), KeyOfId(edges, id);
    MembersSpec(ids, edges, k);
    if k !in keys && k.Reversed() !in keys {
      forall i | 0 <= i < |ids| ensures !SameUndirected(KeyOfId(edges, ids[i]), k) {
        assert KeyOfId(edges, ids[i]) in keys || KeyOfId(edges, ids[i]).Reversed() in keys;
      }
      NoneMatching(ids, edges, k);
    }
  }

  /** A key that no visited edge matches has no members. */
  lemma {:induction false} NoneMatching(ids: seq<EdgeId>, edges: map<EdgeId, Edge>, k: EdgeKey)
    requires Known(ids, edges)
    requires forall i :: 0 <= i < |ids| ==> !SameUndirected(KeyOfId(edges, ids[i]), k)
    ensures Members(ids, edges, k) == []
  {
    if ids != [] {
      NoneMatching(ids[..|ids| - 1], edges, k);
    }
  }

  /** Where bucket `k` was opened: it is non-empty, and its first member, the
      first-arrived matching edge, has exactly the orientation `k`. */
  lemma {:induction false} FirstOrientationWins(ids: seq<EdgeId>, edges: map<EdgeId, Edge>, k: EdgeKey)
    requires Known(ids, edges)
    requires k in BucketKeys(ids, edges)
    ensures |Members(ids, edges, k)| > 0 && Members(ids, edges, k)[0] in edges
    ensures KeyOfId(edges, Members(ids, edges, k)[0]) == k
  {
    var init, id := ids[..|ids| - 1], ids[|ids| - 1];
    assert ids == init + [id];
    MembersSnoc(init, edges, id, k);
    var keys := BucketKeys(init, edges);
    if k in keys {
      FirstOrientationWins(init, edges, k);
    } else {
      BucketKeysStep(init, edges, id);
      assert k == KeyOfId(edges, id);
    }
  }

  /** The bucket an edge lands in: the one named by its own key when there
      is one, and otherwise the one named by its reversed key. */
  function BucketOf(ids: seq<EdgeId>, edges: map<EdgeId, Edge>, id: EdgeId): (r: EdgeKey)
    requires Known(ids, edges) && id in edges
    ensures SameUndirected(r, KeyOfId(edges, id))
    ensures id in ids ==> r in BucketKeys(ids, edges)
  {
    var k := KeyOfId(edges, id);
    BucketKeysSpec(ids, edges);
    if k in BucketKeys(ids, edges) then k else k.Reversed()
  }

  /** Partition: every visited id is a member of exactly one bucket. */
  lemma Partition(ids: seq<EdgeId>, edges: map<EdgeId, Edge>, id: EdgeId)
    requires Known(ids, edges) && id in ids
    ensures id in edges && BucketOf(ids, edges, id) in BucketKeys(ids, edges)
    ensures forall k :: k in BucketKeys(ids, edges) ==>
      (id in Members(ids, edges, k) <==> k == BucketOf(ids, edges, id))
  {
    var i :| 0 <= i < |ids| && ids[i] == id;
    BucketKeysSpec(ids, edges);
    forall k | k in BucketKeys(ids, edges)
      ensures id in Members(ids, edges, k) <==> k == BucketOf(ids, edges, id)
    {
      MembersSpec(ids, edges, k);
    }
  }

  /** Direction is ignored: two visited edges share a bucket exactly when
      they are the same edge up to direction, whichever arrived first. */
  lemma SameBucketIffSameUndirected(ids: seq<EdgeId>, edges: map<EdgeId, Edge>, x: EdgeId, y: EdgeId)
    requires Known(ids, edges) && x in ids && y in ids
    ensures x in edges && y in edges
    ensures BucketOf(ids, edges, x) == BucketOf(ids, edges, y) <==>
      SameUndirected(KeyOfId(edges, x), KeyOfId(edges, y))
  {
    Partition(ids, edges, x);
    Partition(ids, edges, y);
    BucketKeysSpec(ids, edges);
  }

  /** `keys` and `buckets` are what the grouping loop holds after visiting
      `done`: the bucket keys in opening order, each mapped to its members. */
  ghost predicate Grouped(done: seq<EdgeId>, edges: map<EdgeId, Edge>, keys: seq<EdgeKey>, buckets: map<EdgeKey, seq<EdgeId>>) {
    Known(done, edges) && keys == BucketKeys(done, edges) &&
    (forall k :: k in buckets <==> k in keys) &&
    (forall k :: k in buckets ==> buckets[k] == Members(done, edges, k))
  }

  /** An edge that matches bucket `target` opens no bucket. */
  lemma KeysKept(done: seq<EdgeId>, edges: map<EdgeId, Edge>, id: EdgeId, target: EdgeKey)
    requires Known(done, edges) && id in edges
    requires target in BucketKeys(done, edges) && SameUndirected(target, KeyOfId(edges, id))
    ensures Known(done + [id], edges) && BucketKeys(done + [id], edges) == BucketKeys(done, edges)
  {
    BucketKeysStep(done, edges, id);
  }

  /** An edge that matches bucket `target` matches no other bucket, and
      opens none. */
  lemma OnlyTarget(done: seq<EdgeId>, edges: map<EdgeId, Edge>, id: EdgeId, target: EdgeKey)
    requires Known(done, edges) && id in edges
    requires target in BucketKeys(done, edges) && SameUndirected(target, KeyOfId(edges, id))
    ensures Known(done + [id], edges) && BucketKeys(done + [id], edges) == BucketKeys(done, edges)
    ensures forall k :: k in BucketKeys(done, edges) && k != target ==> !SameUndirected(KeyOfId(edges, id), k)
  {
    BucketKeysStep(done, edges, id);
    forall k | k in BucketKeys(done, edges) && k != target ensures !SameUndirected(KeyOfId(edges, id), k) {
      assert !SameUndirected(k, target);
    }
  }

  /** Visiting an edge whose key or reversed key `target` already names a
      bucket appends it to that bucket, unless it is there already. */
  lemma VisitExisting(done: seq<EdgeId>, edges: map<EdgeId, Edge>, keys: seq<EdgeKey>,
                      buckets: map<EdgeKey, seq<EdgeId>>, id: EdgeId, target: EdgeKey)
    requires Grouped(done, edges, keys, buckets) && id in edges
    requires target in buckets && SameUndirected(target, KeyOfId(edges, id))
    ensures Grouped(done + [id], edges, keys,
      if id in buckets[target] then buckets else buckets[target := buckets[target] + [id]])
  {
    if id in buckets[target] {
      VisitPresent(done, edges, keys, buckets, id, target);
    } else {
      VisitAppend(done, edges, keys, buckets, id, target);
    }
  }

  /** An edge already in its bucket changes no bucket. */
  lemma VisitPresent(done: seq<EdgeId>, edges: map<EdgeId, Edge>, keys: seq<EdgeKey>,
                     buckets: map<EdgeKey, seq<EdgeId>>, id: EdgeId, target: EdgeKey)
    requires Grouped(done, edges, keys, buckets) && id in edges
    requires target in buckets && SameUndirected(target, KeyOfId(edges, id))
    requires id in buckets[target]
    ensures Grouped(done + [id], edges, keys, buckets)
  {
    KeysKept(done, edges, id, target);
    forall k | k in buckets ensures buckets[k] == Members(done + [id], edges, k) {
      ExistingMember(done, edges, keys, buckets, id, target, k);
    }
  }

  /** An edge not yet in its bucket is appended to it, and to no other. */
  lemma VisitAppend(done: seq<EdgeId>, edges: map<EdgeId, Edge>, keys: seq<EdgeKey>,
                    buckets: map<EdgeKey, seq<EdgeId>>, id: EdgeId, target: EdgeKey)
    requires Grouped(done, edges, keys, buckets) && id in edges
    requires target in buckets && SameUndirected(target, KeyOfId(edges, id))
    requires id !in buckets[target]
    ensures Grouped(done + [id], edges, keys, buckets[target := buckets[target] + [id]])
  {
    KeysKept(done, edges, id, target);
    var b' := buckets[target := buckets[target] + [id]];
    forall k | k in b' ensures b'[k] == Members(done + [id], edges, k) {
      ExistingMember(done, edges, keys, buckets, id, target, k);
    }
  }

  /** Bucket `k` after visiting an edge that belongs to bucket `target`. */
  lemma ExistingMember(done: seq<EdgeId>, edges: map<EdgeId, Edge>, keys: seq<EdgeKey>,
                       buckets: map<EdgeKey, seq<EdgeId>>, id: EdgeId, target: EdgeKey, k: EdgeKey)
    requires Grouped(done, edges, keys, buckets) && id in edges
    requires target in buckets && SameUndirected(target, KeyOfId(edges, id))
    requires k in buckets
    ensures Known(done + [id], edges)
    ensures Members(done + [id], edges, k) ==
      if k == target && id !in buckets[target] then buckets[k] + [id] else buckets[k]
  {
    OnlyTarget(done, edges, id, target);
    MembersSnoc(done, edges, id, k);
  }

  /** Visiting an edge that matches no bucket in either direction opens a
      bucket of its own under its key. */
  lemma VisitNew(done: seq<EdgeId>, edges: map<EdgeId, Edge>, keys: seq<EdgeKey>,
                 buckets: map<EdgeKey, seq<EdgeId>>, id: EdgeId)
    requires Grouped(done, edges, keys, buckets) && id in edges
    requires KeyOfId(edges, id) !in buckets && KeyOfId(edges, id).Reversed() !in buckets
    ensures Grouped(done + [id], edges, keys + [KeyOfId(edges, id)], buckets[KeyOfId(edges, id) := [id]])
  {
    var key := KeyOfId(edges, id);
    BucketKeysStep(done, edges, id);
    var b' := buckets[key := [id]];
    forall k | k in b' ensures b'[k] == Members(done + [id], edges, k) {
      NewMember(done, edges, keys, buckets, id, k);
    }
  }

  /** Bucket `k` after visiting an edge that opens a bucket of its own. */
  lemma NewMember(done: seq<EdgeId>, edges: map<EdgeId, Edge>, keys: seq<EdgeKey>,
                  buckets: map<EdgeKey, seq<EdgeId>>, id: EdgeId, k: EdgeKey)
    requires Grouped(done, edges, keys, buckets) && id in edges
    requires KeyOfId(edges, id) !in buckets && KeyOfId(edges, id).Reversed() !in buckets
    requires k in buckets || k == KeyOfId(edges, id)
    ensures Known(done + [id], edges)
    ensures Members(done + [id], edges, k) == buckets[KeyOfId(edges, id) := [id]][k]
  {
    var key := KeyOfId(edges, id);
    BucketKeysStep(done, edges, id);
    MembersSnoc(done, edges, id, k);
    if k == key {
      MembersSpec(done, edges, key);
    }
  }

  /** One visit of the grouping loop: appends `id` to the bucket of its key
      or, failing that, of its reversed key, unless it is there already, or
      opens a new bucket under its own key. */
  method Visit(keys: seq<EdgeKey>, buckets: map<EdgeKey, seq<EdgeId>>, edges: map<EdgeId, Edge>, id: EdgeId, ghost done: seq<EdgeId>)
    returns (keys': seq<EdgeKey>, buckets': map<EdgeKey, seq<EdgeId>>)
    requires Grouped(done, edges, keys, buckets) && id in edges
    ensures Grouped(done + [id], edges, keys', buckets')
  {
    var key := KeyOf(edges[id]);
    var rev := key.Reversed();
    keys', buckets' := keys, buckets;
    if key in buckets {
      VisitExisting(done, edges, keys, buckets, id, key);
      if id !in buckets[key] {
        buckets' := buckets[key := buckets[key] + [id]];
      }
    } else if rev in buckets {
      VisitExisting(done, edges, keys, buckets, id, rev);
      if id !in buckets[rev] {
        buckets' := buckets[rev := buckets[rev] + [id]];
      }
    } else {
      VisitNew(done, edges, keys, buckets, id);
      buckets' := buckets[key := [id]];
      keys' := keys + [key];
    }
  }

  /** The grouping loop: visits the edges in arrival order, building the
      bucket keys in opening order and each bucket's members. */
  method GroupEdges(ids: seq<EdgeId>, edges: map<EdgeId, Edge>)
    returns (keys: seq<EdgeKey>, buckets: map<EdgeKey, seq<EdgeId>>)
    requires Known(ids, edges)
    ensures keys == BucketKeys(ids, edges)
    ensures forall k :: k in buckets <==> k in keys
    ensures forall k :: k in buckets ==> buckets[k] == Members(ids, edges, k)
  {
    keys, buckets := [], map[];
    for n := 0 to |ids|
      invariant Grouped(ids[..n], edges, keys, buckets)
    {
      assert ids[..n + 1] == ids[..n] + [ids[n]];
      keys, buckets := Visit(keys, buckets, edges, ids[n], ids[..n]);
    }
    assert ids[..|ids|] == ids;
  }
}

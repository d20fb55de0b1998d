# Edge collapse of an NDEx network, modelled in Dafny

`ndexnetworkcollapse` reads a network from an NDEx server, collapses every
group of duplicate edges into one edge, and records where the result came
from. Two edges are duplicates when they join the same two nodes with the
same interaction, whichever way round they point. This project models the
engine that does the collapsing and proves what it promises.

- **Grouping** (`grouping.dfy`). The edges are walked in arrival order and
  put into buckets keyed by `(source, interaction, target)`. An edge joins
  the bucket of its own key or, failing that, the bucket of its reversed
  key. Otherwise it opens a new bucket under its own key, so the first
  orientation seen names the bucket. Python's insertion-ordered dicts are
  modelled as a sequence of keys plus a `map`.
- **Rewrite** (`collapse.dfy`). Each bucket's first-arrived edge survives
  with its edge record unchanged. Its attribute list absorbs the lists of
  the other members, one after another in arrival order. The network's
  edges and edge attributes are then replaced by the survivors.
  `Network` is a class whose `CollapseEdges` method reassigns its fields.
- **Attribute merge** (`attributes.dfy`). Merging an absorbed list into
  the survivor's list works in place on an array. Each survivor attribute
  looks up the first same-named attribute in the other list. If there is
  one and its value differs, the survivor's datatype tag is promoted to its
  `list_of_*` form. Its value becomes the list of the truthy elements of
  both values, without repeats, the survivor's first.
- **Provenance link** (`provenance.dfy`). This is the address of the
  parent network in the server's web viewer.
- **Deduplication** (`sequences.dfy`). Order-preserving first-occurrence
  deduplication (`Distinct`), shared by the grouping loop and the value
  merge.

Attribute values are JSON scalars (`null`, booleans, integers, reals,
strings) or lists of them. Truthiness follows Python: `null`, `false`, `0`,
`0.0` and `""` are falsy.

## Model

| member | source | states |
|---|---|---|
| Sequences.Distinct | ndexnetworkcollapse/ndexcollapsenetwork.py:180-197 | the list the append-if-absent loops build, each element kept at its first occurrence; the `not in` guards at lines 217 and 221 keep a bucket free of repeats the same way (its contracts are `DistinctSpec` and `DistinctKeepsOrder`) |
| Sequences.DistinctSpec | ndexnetworkcollapse/ndexcollapsenetwork.py:183-197 | the list built by appending only absent elements holds every input element exactly once and nothing else |
| Sequences.DistinctConcat | ndexnetworkcollapse/ndexcollapsenetwork.py:180-197 | building from `a` then `b` gives the list from `a`, followed by the list of `b`'s elements that are not in `a` |
| Sequences.DistinctKeepsOrder | ndexnetworkcollapse/ndexcollapsenetwork.py:183-197 | elements of the deduplicated list appear in the order of their first occurrence in the input |
| Attributes.Promote | ndexnetworkcollapse/ndexcollapsenetwork.py:166-177 | the promotion table: absent or `string` becomes `list_of_string`; `boolean`, `double`, `integer` and `long` become their `list_of_` tag; any other tag is kept; the result is never a scalar tag |
| Attributes.PromoteIdempotent | ndexnetworkcollapse/ndexcollapsenetwork.py:166-177 | a promoted tag is not promoted again, so later merges into the same attribute keep its list tag |
| Attributes.Truthy | ndexnetworkcollapse/ndexcollapsenetwork.py:184-197 | the `and value` test of a scalar: `None`, `False`, `0`, `0.0` and `""` fail it, everything else passes (its use is stated by `TruthyOnlySpec` and `MergedValuesContents`) |
| Attributes.Elements | ndexnetworkcollapse/ndexcollapsenetwork.py:180-197 | the elements the rebuild visits: a list value's items, or a scalar value on its own, the `isinstance(..., list)` branches (its use is stated by `MergedValuesContents`) |
| Attributes.TruthyOnly | ndexnetworkcollapse/ndexcollapsenetwork.py:184-197 | the elements that pass the `and value` guard, in order (its contract is `TruthyOnlySpec`) |
| Attributes.TruthyOnlySpec | ndexnetworkcollapse/ndexcollapsenetwork.py:184-197 | the `and value` guard keeps exactly the truthy elements |
| Attributes.MergedValues | ndexnetworkcollapse/ndexcollapsenetwork.py:180-199 | the rebuilt value list: the truthy elements of the survivor's value, then of the absorbed value, each kept once at its first occurrence (its contracts are `MergedValuesContents` and `MergedValuesOrder`) |
| Attributes.MergedValuesContents | ndexnetworkcollapse/ndexcollapsenetwork.py:180-199 | the merged value has no repeats, and holds an element iff it is truthy and occurs in either value, a scalar counting as a one-element list |
| Attributes.MergedValuesOrder | ndexnetworkcollapse/ndexcollapsenetwork.py:180-199 | the merged value is the survivor's deduplicated truthy elements, followed by the absorbed value's truthy elements not already present, each in original order |
| Attributes.AppendNew | ndexnetworkcollapse/ndexcollapsenetwork.py:182-197 | the appending loop over one value extends the list built so far to the list built from all elements seen |
| Attributes.MergeValues | ndexnetworkcollapse/ndexcollapsenetwork.py:180-199 | the two appending passes build exactly the merged value of the survivor's and the absorbed value |
| Attributes.FirstNamed | ndexnetworkcollapse/ndexcollapsenetwork.py:152-156 | the index returned holds the name and no earlier index does; no index means no attribute has the name |
| Attributes.FindByName | ndexnetworkcollapse/ndexcollapsenetwork.py:152-159 | the scan finds a match iff one exists, and then returns the first |
| Attributes.MergeOne | ndexnetworkcollapse/ndexcollapsenetwork.py:148-199 | the name never changes; the attribute is left untouched when the other list has no same-named attribute, or the first one has an equal value |
| Attributes.MergeAttribute | ndexnetworkcollapse/ndexcollapsenetwork.py:150-199 | one pass of the outer loop turns an attribute into its merged form |
| Attributes.MergedList | ndexnetworkcollapse/ndexcollapsenetwork.py:146-150 | merging keeps the survivor list's length and every name in place; names only in the absorbed list are not added |
| Attributes.MergeAttributes | ndexnetworkcollapse/ndexcollapsenetwork.py:146-199 | the in-place merge leaves the array holding each original attribute merged with the absorbed list |
| Attributes.FoldMerge | ndexnetworkcollapse/ndexcollapsenetwork.py:251-255 | the survivor list after `_merge_attributes` with each absorbed list in turn, first to last (its contract is `FoldMergeKeepsNames`) |
| Attributes.FoldMergeKeepsNames | ndexnetworkcollapse/ndexcollapsenetwork.py:251-255 | however many lists are merged in, in turn, the survivor's list keeps its length and its names in order |
| Attributes.FalseTrueMerged | ndexnetworkcollapse/ndexcollapsenetwork.py:180-199 | rebuilding from the values `false` and `true` gives `[true]` |
| Attributes.MergeDropsFalse | ndexnetworkcollapse/ndexcollapsenetwork.py:161-199 | merging `false` with `true` gives `[true]` tagged `list_of_boolean`: the falsy survivor value is dropped |
| Attributes.MergeDistinctScalars | ndexnetworkcollapse/ndexcollapsenetwork.py:161-199 | merging integer `5` with integer `7` gives `[5, 7]` tagged `list_of_integer` |
| Attributes.FiveSevenMerged | ndexnetworkcollapse/ndexcollapsenetwork.py:180-199 | rebuilding from the values `5` and `7` gives `[5, 7]` |
| Grouping.KeyOf | ndexnetworkcollapse/ndexcollapsenetwork.py:212 | the bucket key `(s, i, t)` of an edge (its use is stated by `BucketKeysSpec` and `MembersSpec`) |
| Grouping.EdgeKey.Reversed | ndexnetworkcollapse/ndexcollapsenetwork.py:213 | the reversed key `(t, i, s)` (its use is stated by `BucketKeysSpec` and `SameBucketIffSameUndirected`) |
| Grouping.BucketKeys | ndexnetworkcollapse/ndexcollapsenetwork.py:210-225 | the keys of `unique_edges` in insertion order: an edge adds its own key exactly when neither its key nor its reversed key is present; there are at most as many keys as edges, and at least one when there is an edge |
| Grouping.Members | ndexnetworkcollapse/ndexcollapsenetwork.py:210-225 | the list of bucket `k`: the ids whose edge is `k` in either direction, in arrival order, each once (its contract is `MembersSpec`) |
| Grouping.BucketOf | ndexnetworkcollapse/ndexcollapsenetwork.py:216-222 | the bucket an edge joins: its own key when that names a bucket, otherwise its reversed key; either way the edge's key up to direction, and a bucket key for every visited edge |
| Grouping.MembersSpec | ndexnetworkcollapse/ndexcollapsenetwork.py:210-225 | a bucket holds no id twice, and holds an id iff it was visited and its edge is the bucket key in one direction or the other |
| Grouping.MembersSnoc | ndexnetworkcollapse/ndexcollapsenetwork.py:216-225 | visiting one more edge appends its id to the bucket it matches, if absent, and leaves every other bucket alone |
| Grouping.BucketKeysSpec | ndexnetworkcollapse/ndexcollapsenetwork.py:210-225 | the keys are distinct, no key is another's reverse, every visited edge is a key in one direction, and every key is some visited edge's own orientation |
| Grouping.BucketKeysStep | ndexnetworkcollapse/ndexcollapsenetwork.py:216-225 | a visited edge opens a new key exactly when neither its key nor its reversed key is present, and then no earlier edge matches it |
| Grouping.FirstOrientationWins | ndexnetworkcollapse/ndexcollapsenetwork.py:216-225 | every bucket is non-empty and its first member's own orientation is the bucket key |
| Grouping.Partition | ndexnetworkcollapse/ndexcollapsenetwork.py:210-225 | every visited id lies in exactly one bucket |
| Grouping.SameBucketIffSameUndirected | ndexnetworkcollapse/ndexcollapsenetwork.py:212-225 | two visited edges share a bucket iff they are the same edge up to direction, so `(s,i,t)` and `(t,i,s)` always do, self-loops included |
| Grouping.VisitExisting | ndexnetworkcollapse/ndexcollapsenetwork.py:216-222 | an edge whose key or reversed key names a bucket is appended to that bucket unless already in it, no other bucket changes, and no key is added |
| Grouping.VisitPresent | ndexnetworkcollapse/ndexcollapsenetwork.py:216-222 | an edge already in the bucket it matches changes neither the keys nor any bucket |
| Grouping.VisitAppend | ndexnetworkcollapse/ndexcollapsenetwork.py:216-222 | an edge not yet in the bucket it matches is appended to that bucket alone; the keys are unchanged |
| Grouping.VisitNew | ndexnetworkcollapse/ndexcollapsenetwork.py:224-225 | an edge matching no bucket in either direction opens a bucket `[id]` under its own key, appended to the key order |
| Grouping.Visit | ndexnetworkcollapse/ndexcollapsenetwork.py:212-225 | one iteration of the grouping loop turns the keys and buckets of the edges visited so far into those of one more edge |
| Grouping.GroupEdges | ndexnetworkcollapse/ndexcollapsenetwork.py:204-225 | the grouping loop yields the bucket keys in opening order, one bucket per key, each holding its members |
| Collapse.AllBucketsNonEmpty | ndexnetworkcollapse/ndexcollapsenetwork.py:237-238 | every bucket has an id for `pop(0)` to take |
| Collapse.Survivors | ndexnetworkcollapse/ndexcollapsenetwork.py:237-238 | the id `pop(0)` takes from each bucket, in bucket order (its contract is `SurvivorsSpec`) |
| Collapse.SurvivorsSpec | ndexnetworkcollapse/ndexcollapsenetwork.py:237-239 | there is one survivor per bucket, no survivor twice, and each is a visited edge whose own orientation is its bucket's key |
| Collapse.ApartIsFixed | ndexnetworkcollapse/ndexcollapsenetwork.py:210-225 | when no two edges are duplicates, each edge opens its own bucket and is alone in it |
| Collapse.SurvivorsApart | ndexnetworkcollapse/ndexcollapsenetwork.py:237-239 | no two survivors are the same edge up to direction |
| Collapse.ApartSameRecords | ndexnetworkcollapse/ndexcollapsenetwork.py:204-263 | whether edges are duplicates depends only on their own records, so the unchanged records of the rewritten edges keep the survivors apart |
| Collapse.ApartSurvive | ndexnetworkcollapse/ndexcollapsenetwork.py:237-239 | edges that are pairwise apart all survive, in order, each alone in its bucket |
| Collapse.RecollapseKeepsLists | ndexnetworkcollapse/ndexcollapsenetwork.py:204-263 | collapsing the rewritten edges and attributes again keeps every rewritten edge, in order, with the attribute list it was given |
| Collapse.CollapseIdempotent | ndexnetworkcollapse/ndexcollapsenetwork.py:204-263 | collapsing the survivors again keeps them all, each alone in its bucket, and leaves every survivor's attribute list as it is, whatever lists they carry |
| Collapse.SampleBuckets | ndexnetworkcollapse/ndexcollapsenetwork.py:210-225 | edges 10→20, 20→10 and 10→30 give two buckets, keyed 10→20 and 10→30 |
| Collapse.SampleFirstBucketKeys | ndexnetworkcollapse/ndexcollapsenetwork.py:224-225 | the first edge 10→20 opens the bucket keyed 10→20 |
| Collapse.SampleSecondBucketKeys | ndexnetworkcollapse/ndexcollapsenetwork.py:216-222 | its reverse 20→10 opens no bucket of its own |
| Collapse.SampleFirstBucket | ndexnetworkcollapse/ndexcollapsenetwork.py:216-222 | the reverse edge joins the bucket of the first orientation, after it |
| Collapse.SampleSecondBucket | ndexnetworkcollapse/ndexcollapsenetwork.py:224-225 | an edge to a third node is alone in its bucket |
| Collapse.OppositeEdgesCollapse | ndexnetworkcollapse/ndexcollapsenetwork.py:237-239 | of those three edges, the first and the third survive |
| Collapse.SurvivorAttributes | ndexnetworkcollapse/ndexcollapsenetwork.py:240-257 | the final list of bucket `k`'s survivor: its own list when the bucket has no other member, otherwise its own list with each other member's list merged in, in arrival order (its contract is `SurvivorAttributesShape`) |
| Collapse.SurvivorAttributesShape | ndexnetworkcollapse/ndexcollapsenetwork.py:241-257 | a survivor's final list keeps the length and names of its own list, and is its own list unchanged when the bucket has no other member |
| Collapse.MergeBucket | ndexnetworkcollapse/ndexcollapsenetwork.py:247-257 | the merge loop over the absorbed ids yields the survivor's list with each absorbed list merged in, in arrival order |
| Collapse.CollapseBucket | ndexnetworkcollapse/ndexcollapsenetwork.py:237-257 | one bucket yields its first member, that member's unchanged edge record, and its final attribute list |
| Collapse.RewriteStep | ndexnetworkcollapse/ndexcollapsenetwork.py:239-257 | adding a new survivor with its record and list extends the rewritten edges and attributes by exactly that entry |
| Collapse.SurvivorLists | ndexnetworkcollapse/ndexcollapsenetwork.py:237-257 | the final attribute lists, one per bucket in bucket order: each is the survivor's `SurvivorAttributes` |
| Collapse.SurvivorListsShape | ndexnetworkcollapse/ndexcollapsenetwork.py:237-257 | there is one final list per survivor; each keeps the length and the names, in order, of its survivor's own list, and equals it when the survivor's bucket has no other member |
| Collapse.RewriteEdges | ndexnetworkcollapse/ndexcollapsenetwork.py:230-257 | the new edge ids are the survivors in bucket order; both new maps hold exactly those ids; each keeps its original edge record and carries its bucket's final attribute list |
| Collapse.Network.CollapseEdges | ndexnetworkcollapse/ndexcollapsenetwork.py:204-263 | the network's edges and edge attributes are replaced by the survivors with their records and final lists, and the edge list stays well formed |
| Provenance.WithScheme | ndexnetworkcollapse/ndexcollapsenetwork.py:267 | a server starting with `http` is kept; any other gets `http://` in front |
| Provenance.ParentNetworkUrl | ndexnetworkcollapse/ndexcollapsenetwork.py:266-269 | the link starts with `http` and with the scheme-completed server, ends with `/#/network/` and the network id, and has nothing in between |
| Provenance.ParentNetworkUrlSplits | ndexnetworkcollapse/ndexcollapsenetwork.py:268 | the link splits back into the server part, `/#/network/` and the network id |
| Provenance.ParentNetworkUrlInjective | ndexnetworkcollapse/ndexcollapsenetwork.py:266-269 | for ids of equal length, two links are equal iff their scheme-completed servers and ids are |
| Provenance.WithSchemeIdempotent | ndexnetworkcollapse/ndexcollapsenetwork.py:267 | completing the scheme twice is completing it once |
| Provenance.HostNamedHttpGetsNoScheme | ndexnetworkcollapse/ndexcollapsenetwork.py:267 | a host name starting with `http`, given without a scheme, yields a link with no scheme |
| Provenance.WithSchemeStrict | ndexnetworkcollapse/ndexcollapsenetwork.py:267 | a server starting with `http://` or `https://` is kept; every other server, `httpbin.example.org` included, becomes `http://` followed by the server; the result always has a scheme |
| Provenance.ParentNetworkUrlStrict | ndexnetworkcollapse/ndexcollapsenetwork.py:266-269 | the link always starts with `http://` or `https://`, starts with the strictly scheme-completed server, ends with `/#/network/` and the network id, and has nothing in between |
| Provenance.StrictGivesHostNamedHttpScheme | ndexnetworkcollapse/ndexcollapsenetwork.py:267 | with the strict check, server `httpbin.example.org` and network `42` give `http://httpbin.example.org/#/network/42` |
| Provenance.StrictAgrees | ndexnetworkcollapse/ndexcollapsenetwork.py:267 | the strict link equals the original for every server with a full scheme, or one that does not start with `http` |

## Left out

- Command-line parsing, logging set-up, config loading and `main` (`ndexnetworkcollapse/ndexcollapsenetwork.py:19-114`, `:293-339`). They are plumbing around libraries that are not part of this model.
- Fetching the network and uploading the result, and the `set_network_attribute` call that stores the provenance link (lines 116-129, 272-273, 289). These are remote I/O through the `ndex2` client; only the link string is modelled.
- `run` (lines 275-291). It only calls the steps above in sequence.
- The `print(len(unique_edges))` debug output (line 228). It is output only.
- The commented-out `_check_if_edge_is_duplicate` (lines 132-143). It is dead code.
- Python's cross-type equality (`1 == True == 1.0`) and floating point. Equality of scalars is structural, and reals are exact.
- Nested lists or objects as attribute values. A value is a scalar or a flat list of scalars.
- Attribute fields other than name, value and datatype. Edge fields other than source, interaction and target (`@id`, `po`, …) are not modelled either.
- Collapse.Network.CollapseEdges: a missing attribute entry for an edge makes the source raise `KeyError` (lines 242, 247, 253). Here the method requires every edge to have an entry.
- Collapse.Network.CollapseEdges: the attribute lists are values in a map, so the in-place mutation of the survivor's original list object is not modelled. This is the aliasing between the old and new `edgeAttributes`. The `del` of a singleton survivor's old entry (line 243) is not modelled either. Neither is observable once both maps are replaced.
- Collapse.Network.CollapseEdges: the order of the new edge-attribute map is not modelled. Only its contents per id are stated; its key order equals the edge order.

## Findings

| source | as written | input that shows it | evidently intended | confidence | as-written member | corrected member |
|---|---|---|---|---|---|---|
| ndexnetworkcollapse/ndexcollapsenetwork.py:267 | a server counts as already having a scheme when it starts with `http` | server `httpbin.example.org`, network `42` gives `httpbin.example.org/#/network/42`, which has no scheme | add `http://` unless the server starts with `http://` or `https://` | medium, not executed | Provenance.HostNamedHttpGetsNoScheme | Provenance.ParentNetworkUrlStrict |

/**
 * Index preparation and result mapping of semantic_search.py: flattening the crawl tree
 * into index entries, the guards of index construction, and turning the neighbours
 * reported by the flat L2 index into scored results.
 */
module SemanticSearch {
  import opened Wrappers
  import opened Embeddings
  import opened CrawlTree

  /** One flattened node, `{url, summary, embedding}` with the embedding converted to floats. */
  datatype IndexedEntry = IndexedEntry(url: Url, summary: string, embedding: seq<real>)

  /**
   * The entry emitted for one node, or None when the node is skipped: its embedding must
   * have `Dim` components, each accepted by `float()`.
   */
  function EntryFor(n: CrawlNode): (r: Option<IndexedEntry>)
    ensures r.Some? <==> |n.embedding| == Dim && forall i :: 0 <= i < |n.embedding| ==> n.embedding[i].Num?
    ensures r.Some? ==>
      && r.value.url == n.url
      && r.value.summary == n.summary
      && |r.value.embedding| == Dim
      && forall i :: 0 <= i < Dim ==> r.value.embedding[i] == n.embedding[i].value
  {
    if HasDim(n.embedding) then
      match ToFloats(n.embedding)
      case Some(floats) => Some(IndexedEntry(n.url, n.summary, floats))
      case None => None
    else None
  }

  function EntrySeq(e: Option<IndexedEntry>): seq<IndexedEntry> {
    if e.Some? then [e.value] else []
  }

  /** What the nested `recurse` appends for the tree rooted at `n`: its own entry, then its children's. */
  function Flatten(n: CrawlNode): seq<IndexedEntry>
    decreases n
  {
    EntrySeq(EntryFor(n)) + FlattenAll(n.children)
  }

  function FlattenAll(cs: seq<CrawlNode>): seq<IndexedEntry>
    decreases cs
  {
    if cs == [] then [] else Flatten(cs[0]) + FlattenAll(cs[1..])
  }

  /** The reference definition: the valid nodes of a flat node list, in list order. */
  function SelectValid(ns: seq<CrawlNode>): seq<IndexedEntry> {
    if ns == [] then [] else EntrySeq(EntryFor(ns[0])) + SelectValid(ns[1..])
  }

  lemma {:induction false} SelectValidConcat(a: seq<CrawlNode>, b: seq<CrawlNode>)
    ensures SelectValid(a + b) == SelectValid(a) + SelectValid(b)
  {
    if a != [] {
      assert (a + b)[0] == a[0] && (a + b)[1..] == a[1..] + b;
      SelectValidConcat(a[1..], b);
      calc {
        SelectValid(a + b);
        EntrySeq(EntryFor(a[0])) + SelectValid(a[1..] + b);
        EntrySeq(EntryFor(a[0])) + (SelectValid(a[1..]) + SelectValid(b));
      }
    } else {
      assert a + b == b;
    }
  }

  /**
   * Flattening is the preorder of the tree filtered to its valid nodes: skipped nodes
   * contribute nothing, but their children are still visited.
   */
  lemma {:induction false} FlattenIsPreorderFilter(n: CrawlNode)
    ensures Flatten(n) == SelectValid(Nodes(n))
    decreases n
  {
    FlattenAllIsPreorderFilter(n.children);
    assert Nodes(n) == [n] + NodesOf(n.children);
    SelectValidConcat([n], NodesOf(n.children));
  }

  lemma {:induction false} FlattenAllIsPreorderFilter(cs: seq<CrawlNode>)
    ensures FlattenAll(cs) == SelectValid(NodesOf(cs))
    decreases cs
  {
    if cs != [] {
      FlattenIsPreorderFilter(cs[0]);
      FlattenAllIsPreorderFilter(cs[1..]);
      SelectValidConcat(Nodes(cs[0]), NodesOf(cs[1..]));
    }
  }

  /**
   * An entry is emitted for a node of the list iff the node passes the gate, every emitted
   * entry is some node's entry and has `Dim` floats, and there are at most as many entries as nodes.
   */
  lemma {:induction false} SelectValidSpec(ns: seq<CrawlNode>)
    ensures |SelectValid(ns)| <= |ns|
    ensures forall m :: m in ns && EntryFor(m).Some? ==> EntryFor(m).value in SelectValid(ns)
    ensures forall e :: e in SelectValid(ns) ==> exists m :: m in ns && EntryFor(m) == Some(e)
    ensures forall e :: e in SelectValid(ns) ==> |e.embedding| == Dim
  {
    if ns != [] {
      SelectValidSpec(ns[1..]);
      assert SelectValid(ns) == EntrySeq(EntryFor(ns[0])) + SelectValid(ns[1..]);
      forall e | e in SelectValid(ns)
        ensures exists m :: m in ns && EntryFor(m) == Some(e)
      {
        if e in SelectValid(ns[1..]) {
          var m :| m in ns[1..] && EntryFor(m) == Some(e);
          assert m in ns;
        } else {
          assert EntryFor(ns[0]) == Some(e);
        }
      }
    }
  }

  /** The list of entries that the nested `recurse` appends to. */
  class EntryList {
    var entries: seq<IndexedEntry>

    constructor ()
      ensures entries == []
    {
      entries := [];
    }
  }

  /** The first half of the nested `recurse`: append this node's entry when its embedding is valid. */
  method AppendEntry(out: EntryList, node: CrawlNode)
    modifies out
    ensures out.entries == old(out.entries) + EntrySeq(EntryFor(node))
  {
    if HasDim(node.embedding) {
      var floats := ToFloats(node.embedding);
      if floats.Some? {
        out.entries := out.entries + [IndexedEntry(node.url, node.summary, floats.value)];
      }
    }
  }

  /** The nested `recurse`: append this node's entry, then recurse into every child in order. */
  method Recurse(out: EntryList, node: CrawlNode)
    modifies out
    ensures out.entries == old(out.entries) + Flatten(node)
    decreases node
  {
    AppendEntry(out, node);
    ghost var start := out.entries;
    assert start + FlattenAll(node.children) == old(out.entries) + Flatten(node);
    var i := 0;
    while i < |node.children|
      invariant 0 <= i <= |node.children|
      invariant out.entries + FlattenAll(node.children[i..]) == start + FlattenAll(node.children)
    {
      ghost var before := out.entries;
      ghost var rest := node.children[i + 1..];
      assert node.children[i..][0] == node.children[i] && node.children[i..][1..] == rest;
      Recurse(out, node.children[i]);
      assert out.entries + FlattenAll(rest) == before + (Flatten(node.children[i]) + FlattenAll(rest));
      i := i + 1;
    }
    assert FlattenAll(node.children[i..]) == [] by {
      assert node.children[i..] == [];
    }
    assert out.entries == start + FlattenAll(node.children);
  }

  /** `extract_nodes_with_embeddings(tree)`. */
  method ExtractNodesWithEmbeddings(tree: CrawlNode) returns (nodes: seq<IndexedEntry>)
    ensures nodes == SelectValid(Nodes(tree))
    ensures |nodes| <= |Nodes(tree)|
    ensures forall i :: 0 <= i < |nodes| ==> |nodes[i].embedding| == Dim
  {
    var out := new EntryList();
    Recurse(out, tree);
    nodes := out.entries;
    FlattenIsPreorderFilter(tree);
    SelectValidSpec(Nodes(tree));
    assert forall i :: 0 <= i < |nodes| ==> nodes[i] in SelectValid(Nodes(tree));
  }

  /** The ValueErrors of `build_faiss_index`, and numpy's refusal of rows of unequal length. */
  datatype BuildError = NoNodes | RaggedRows | DimensionMismatch(width: nat)

  /** The flat L2 index: the stored vectors, row by row. */
  datatype FlatIndex = FlatIndex(vectors: seq<seq<real>>)

  /** `build_faiss_index(nodes)`: the index and the node list it returns. */
  function BuildFaissIndex(nodes: seq<IndexedEntry>): (r: Result<(FlatIndex, seq<IndexedEntry>), BuildError>)
    ensures r == Err(NoNodes) <==> nodes == []
    ensures r.Ok? <==> nodes != [] && forall i :: 0 <= i < |nodes| ==> |nodes[i].embedding| == Dim
    ensures r.Ok? ==>
      && r.value.1 == nodes
      && |r.value.0.vectors| == |nodes|
      && forall i :: 0 <= i < |nodes| ==> r.value.0.vectors[i] == nodes[i].embedding
  {
    if nodes == [] then Err(NoNodes)
    else
      var width := |nodes[0].embedding|;
      if exists i :: 0 <= i < |nodes| && |nodes[i].embedding| != width then Err(RaggedRows)
      else if width != Dim then Err(DimensionMismatch(width))
      else Ok((FlatIndex(seq(|nodes|, i requires 0 <= i < |nodes| => nodes[i].embedding)), nodes))
  }

  /** The entries extracted from a tree with at least one valid node can always be indexed. */
  lemma ExtractedEntriesAreIndexable(tree: CrawlNode)
    requires SelectValid(Nodes(tree)) != []
    ensures BuildFaissIndex(SelectValid(Nodes(tree))).Ok?
  {
    var nodes := SelectValid(Nodes(tree));
    SelectValidSpec(Nodes(tree));
    assert forall i :: 0 <= i < |nodes| ==> nodes[i] in nodes;
  }

  /** One search hit: `{url, summary, score}`. */
  datatype SearchResult = SearchResult(url: Url, summary: string, score: real)

  /** `nodes[idx]` raised IndexError for the pair at `position`. */
  datatype SearchError = IndexOutOfRange(position: nat)

  /** `1 - dist`: a linear transform of the squared L2 distance, not a bounded similarity. */
  function Score(dist: real): real {
    1.0 - dist
  }

  /** Python's `nodes[idx]` accepts -n <= idx < n, counting negative indices from the end. */
  predicate InPyRange(idx: int, n: nat) {
    -(n as int) <= idx < n
  }

  function PyIndex(idx: int, n: nat): (k: nat)
    requires InPyRange(idx, n)
    ensures k < n
  {
    if idx < 0 then idx + n else idx
  }

  /**
   * The result loop of `search(query, index, nodes, top_k)`, over the `distances` and
   * `indices` rows the index returned for the query: one result per pair of `zip`, in order.
   */
  method Search(nodes: seq<IndexedEntry>, distances: seq<real>, indices: seq<int>)
    returns (r: Result<seq<SearchResult>, SearchError>)
    ensures var k := Min(|distances|, |indices|);
      r.Ok? <==> forall i :: 0 <= i < k ==> InPyRange(indices[i], |nodes|)
    ensures r.Ok? ==>
      && |r.value| == Min(|distances|, |indices|)
      && forall i :: 0 <= i < |r.value| ==>
           var node := nodes[PyIndex(indices[i], |nodes|)];
           r.value[i] == SearchResult(node.url, node.summary, 1.0 - distances[i])
    ensures r.Ok? ==> forall i :: 0 <= i < |r.value| && distances[i] == 0.0 ==> r.value[i].score == 1.0
    ensures r.Ok? ==> forall i, j :: 0 <= i < |r.value| && 0 <= j < |r.value| ==>
      (distances[i] < distances[j] ==> r.value[i].score > r.value[j].score)
  {
    var k := Min(|distances|, |indices|);
    var results: seq<SearchResult> := [];
    var i := 0;
    while i < k
      invariant 0 <= i <= k
      invariant forall j :: 0 <= j < i ==> InPyRange(indices[j], |nodes|)
      invariant |results| == i
      invariant forall j :: 0 <= j < i ==>
        var node := nodes[PyIndex(indices[j], |nodes|)];
        results[j] == SearchResult(node.url, node.summary, Score(distances[j]))
    {
      if !InPyRange(indices[i], |nodes|) {
        return Err(IndexOutOfRange(i));
      }
      var node := nodes[PyIndex(indices[i], |nodes|)];
      results := results + [SearchResult(node.url, node.summary, Score(distances[i]))];
      i := i + 1;
    }
    r := Ok(results);
  }

  /** The index FAISS reports in place of a neighbour when the index holds fewer than `top_k` vectors. */
  const Padding: int := -1

  /**
   * As written, the padding index passes Python's indexing of a non-empty `nodes` and
   * names its last entry, so `search` turns each padding slot into a copy of that entry.
   */
  lemma PaddingNamesLastEntry(n: nat)
    requires n > 0
    ensures InPyRange(Padding, n) && PyIndex(Padding, n) == n - 1
  {
  }

  /**
   * The results for the first `k` pairs with padding slots skipped: a pair whose index is
   * neither padding nor a position of `nodes` is an error, reported for the first such pair.
   */
  function Neighbours(nodes: seq<IndexedEntry>, distances: seq<real>, indices: seq<int>, k: nat)
    : (r: Result<seq<SearchResult>, SearchError>)
    requires k <= |distances| && k <= |indices|
    ensures r.Ok? <==> forall i :: 0 <= i < k ==> indices[i] == Padding || 0 <= indices[i] < |nodes|
    ensures r.Ok? ==> |r.value| <= k
    decreases k
  {
    if k == 0 then Ok([])
    else
      match Neighbours(nodes, distances, indices, k - 1)
      case Err(e) => Err(e)
      case Ok(rs) =>
        var idx := indices[k - 1];
        if idx == Padding then Ok(rs)
        else if 0 <= idx < |nodes| then Ok(rs + [SearchResult(nodes[idx].url, nodes[idx].summary, Score(distances[k - 1]))])
        else Err(IndexOutOfRange(k - 1))
  }

  /**
   * When the first `m` of `k` slots hold neighbours and the rest are padding, which is how
   * the flat index answers a `top_k` above its size, there are exactly `m` results, the
   * `i`-th taken from `nodes[indices[i]]` with score `1 - distances[i]`.
   */
  lemma {:induction false} NeighboursClamp(nodes: seq<IndexedEntry>, distances: seq<real>, indices: seq<int>, k: nat, m: nat)
    requires m <= k <= |distances| && k <= |indices|
    requires forall i :: 0 <= i < m ==> 0 <= indices[i] < |nodes|
    requires forall i :: m <= i < k ==> indices[i] == Padding
    ensures var r := Neighbours(nodes, distances, indices, k);
      && r.Ok? && |r.value| == m
      && forall i :: 0 <= i < m ==>
           r.value[i] == SearchResult(nodes[indices[i]].url, nodes[indices[i]].summary, Score(distances[i]))
    decreases k
  {
    if k > m {
      NeighboursClamp(nodes, distances, indices, k - 1, m);
    } else if k > 0 {
      NeighboursClamp(nodes, distances, indices, k - 1, m - 1);
    }
  }

  /** Once a prefix of the pairs fails, every longer prefix fails with the same error. */
  lemma {:induction false} NeighboursErrorPersists(nodes: seq<IndexedEntry>, distances: seq<real>, indices: seq<int>, i: nat, k: nat)
    requires i <= k <= |distances| && k <= |indices|
    requires Neighbours(nodes, distances, indices, i).Err?
    ensures Neighbours(nodes, distances, indices, k) == Neighbours(nodes, distances, indices, i)
    decreases k
  {
    if k > i {
      NeighboursErrorPersists(nodes, distances, indices, i, k - 1);
    }
  }

  /** The result loop of `search` with FAISS's padding slots dropped (see ## Findings in README.md). */
  method SearchNeighbours(nodes: seq<IndexedEntry>, distances: seq<real>, indices: seq<int>)
    returns (r: Result<seq<SearchResult>, SearchError>)
    ensures r == Neighbours(nodes, distances, indices, Min(|distances|, |indices|))
  {
    var k := Min(|distances|, |indices|);
    var results: seq<SearchResult> := [];
    var i := 0;
    while i < k
      invariant 0 <= i <= k
      invariant Neighbours(nodes, distances, indices, i) == Ok(results)
    {
      var idx := indices[i];
      if idx != Padding {
        if !(0 <= idx < |nodes|) {
          NeighboursErrorPersists(nodes, distances, indices, i + 1, k);
          return Err(IndexOutOfRange(i));
        }
        results := results + [SearchResult(nodes[idx].url, nodes[idx].summary, Score(distances[i]))];
      }
      i := i + 1;
    }
    r := Ok(results);
  }
}

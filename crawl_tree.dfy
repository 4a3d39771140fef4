/** The navigation tree produced by the crawler, and the tree-wide notions stated about it. */
module CrawlTree {
  import opened Embeddings

  type Url = string

  /**
   * One crawled page: the dictionary `{title, url, summary, type, embedding, children}`
   * built by crawler.py. `pageType` is the dictionary's `type` entry.
   */
  datatype CrawlNode = CrawlNode(
    title: string,
    url: Url,
    summary: string,
    pageType: string,
    embedding: Embedding,
    children: seq<CrawlNode>)

  /** All nodes of the tree rooted at `n`, in preorder (a node before its children, children left to right). */
  function Nodes(n: CrawlNode): (ns: seq<CrawlNode>)
    ensures |ns| > 0 && ns[0] == n
    decreases n
  {
    [n] + NodesOf(n.children)
  }

  /** The preorder nodes of a sequence of sibling trees, one tree after another. */
  function NodesOf(cs: seq<CrawlNode>): seq<CrawlNode>
    decreases cs
  {
    if cs == [] then [] else Nodes(cs[0]) + NodesOf(cs[1..])
  }

  predicate Distinct<T(==)>(s: seq<T>) {
    forall i, j :: 0 <= i < j < |s| ==> s[i] != s[j]
  }

  /** No URL occurs at two positions of `ns`. */
  ghost predicate DistinctUrls(ns: seq<CrawlNode>) {
    forall i, j :: 0 <= i < j < |ns| ==> ns[i].url != ns[j].url
  }

  /** Two node sequences share no URL. */
  ghost predicate UrlsDisjoint(a: seq<CrawlNode>, b: seq<CrawlNode>) {
    forall x, y :: x in a && y in b ==> x.url != y.url
  }

  lemma DistinctUrlsConcat(a: seq<CrawlNode>, b: seq<CrawlNode>)
    requires DistinctUrls(a) && DistinctUrls(b) && UrlsDisjoint(a, b)
    ensures DistinctUrls(a + b)
  {
    forall i, j | 0 <= i < j < |a + b|
      ensures (a + b)[i].url != (a + b)[j].url
    {
      if j < |a| {
        assert (a + b)[i] == a[i] && (a + b)[j] == a[j];
      } else if |a| <= i {
        assert (a + b)[i] == b[i - |a|] && (a + b)[j] == b[j - |a|];
      } else {
        assert (a + b)[i] == a[i] && (a + b)[j] == b[j - |a|];
      }
    }
  }

  /**
   * The node `n`, crawled at `depth`, and its descendants at depth + 1, depth + 2, ...,
   * all sit at most at `maxDepth`; a node at `maxDepth` itself has no children.
   */
  ghost predicate WithinDepth(n: CrawlNode, depth: nat, maxDepth: nat)
    decreases n
  {
    && depth <= maxDepth
    && (depth == maxDepth ==> n.children == [])
    && forall c :: c in n.children ==> WithinDepth(c, depth + 1, maxDepth)
  }

  /** Every node of the tree carries an embedding of exactly `Dim` components. */
  ghost predicate EmbeddingsHaveDim(n: CrawlNode)
    decreases n
  {
    HasDim(n.embedding) && forall c :: c in n.children ==> EmbeddingsHaveDim(c)
  }

  /**
   * Every node's title is its URL, and every child shares its parent's network
   * location (as computed by `netloc`).
   */
  ghost predicate SameSite(n: CrawlNode, netloc: Url -> string)
    decreases n
  {
    n.title == n.url &&
    forall c :: c in n.children ==> netloc(c.url) == netloc(n.url) && SameSite(c, netloc)
  }
}

/**
 * The deduplicating, depth-bounded crawl of crawler.py.
 *
 * The network, the HTML parser, `urljoin`/`urlparse` and the summarizer are the
 * oracles of a `Web` value. The thread pool that crawls a page's links is modelled
 * by one sequential schedule: each child crawl runs to completion before the next
 * starts, in the order the links were discovered. Under that schedule the shared
 * `visited` set makes every URL occur at most once in the tree (CrawlDedup). With
 * real threads the membership test and the insertion are two separate steps, so
 * two branches can both pass the test; that race is not part of this model.
 */
module Crawler {
  import opened Wrappers
  import opened Embeddings
  import opened CrawlTree

  /** Worker threads per expansion point; it only bounds concurrency, which the sequential model has none of. */
  const MaxWorkers: nat := 10

  /** What `summarize_content_from_html` returns for a page: summary, page type, embedding. */
  datatype Analysis = Analysis(summary: string, pageType: string, embedding: Embedding)

  /** The collaborators of the crawl, as total functions. */
  datatype Web = Web(
    fetch: Url -> Option<string>,      // get_page_content: the page text, or None on failure
    hrefs: (string, Url) -> seq<Url>,  // urljoin(base, href) for every <a href> of the page, in document order
    netloc: Url -> string,             // urlparse(u).netloc
    analyze: string -> Analysis)       // summarize_content_from_html

  /** The result of crawling one URL, and the visited set afterwards. */
  datatype Outcome = Outcome(node: Option<CrawlNode>, visited: set<Url>)

  /** The non-None results of crawling a list of links, and the visited set afterwards. */
  datatype Fanout = Fanout(children: seq<CrawlNode>, visited: set<Url>)

  /**
   * The fetch oracle applied to one URL. Methods apply the oracles through these two
   * functions so that the crawl method and the crawl function name the same terms.
   */
  function Fetch(web: Web, url: Url): Option<string> {
    web.fetch(url)
  }

  /** The analysis oracle applied to one page (see Fetch). */
  function Analyze(web: Web, content: string): Analysis {
    web.analyze(content)
  }

  /** `if not content`: a missing or empty page counts as a failed fetch. */
  predicate Fetched(content: Option<string>) {
    content.Some? && content.value != ""
  }

  /**
   * The link set built from `hrefs`: each URL on `site` that is not already visited,
   * kept once, at its first occurrence. Its elements are exactly those of the Python set.
   */
  function Collect(hrefs: seq<Url>, site: string, netloc: Url -> string, visited: set<Url>): seq<Url>
  {
    if hrefs == [] then []
    else
      var links := Collect(hrefs[..|hrefs| - 1], site, netloc, visited);
      var full := hrefs[|hrefs| - 1];
      if netloc(full) == site && full !in visited && full !in links then links + [full] else links
  }

  /** The links a page offers for crawling, with `visited` as it is when they are extracted. */
  function Frontier(web: Web, content: string, url: Url, visited: set<Url>): seq<Url> {
    Collect(web.hrefs(content, url), web.netloc(url), web.netloc, visited)
  }

  lemma {:induction false} CollectFilters(hrefs: seq<Url>, site: string, netloc: Url -> string, visited: set<Url>)
    ensures forall u :: u in Collect(hrefs, site, netloc, visited) <==> u in hrefs && netloc(u) == site && u !in visited
    ensures Distinct(Collect(hrefs, site, netloc, visited))
  {
    if hrefs != [] {
      var init := hrefs[..|hrefs| - 1];
      CollectFilters(init, site, netloc, visited);
      assert hrefs == init + [hrefs[|hrefs| - 1]];
    }
  }

  /**
   * The sequential crawl of `url` at `depth`: the node it returns and the visited set it leaves.
   * `url` is claimed before it is fetched, so a page whose fetch or analysis fails stays visited.
   */
  function Crawled(web: Web, url: Url, depth: nat, maxDepth: nat, visited: set<Url>): (r: Outcome)
    ensures visited <= r.visited
    ensures r.node.Some? ==> url !in visited && url in r.visited && r.node.value.url == url && r.node.value.title == url
    decreases maxDepth - depth, 0
  {
    if depth > maxDepth || url in visited then Outcome(None, visited)
    else
      var claimed := visited + {url};
      var content := Fetch(web, url);
      if !Fetched(content) then Outcome(None, claimed)
      else
        var links := Frontier(web, content.value, url, claimed);
        var analysis := Analyze(web, content.value);
        if !HasDim(analysis.embedding) then Outcome(None, claimed)
        else
          var fan := CrawledChildren(web, links, depth + 1, maxDepth, claimed);
          var node := CrawlNode(url, url, analysis.summary, analysis.pageType, analysis.embedding, fan.children);
          Outcome(Some(node), fan.visited)
  }

  /** The case where `url` is fetched, analysed with a valid embedding, and its links are crawled. */
  lemma CrawledExpands(web: Web, url: Url, depth: nat, maxDepth: nat, visited: set<Url>)
    requires depth <= maxDepth && url !in visited
    requires Fetched(Fetch(web, url)) && HasDim(Analyze(web, Fetch(web, url).value).embedding)
    ensures
      var content := Fetch(web, url).value;
      var analysis := Analyze(web, content);
      var fan := CrawledChildren(web, Frontier(web, content, url, visited + {url}), depth + 1, maxDepth, visited + {url});
      Crawled(web, url, depth, maxDepth, visited)
        == Outcome(Some(CrawlNode(url, url, analysis.summary, analysis.pageType, analysis.embedding, fan.children)), fan.visited)
  {
  }

  /** Crawling `links` one after another at `depth`, keeping the non-None results in that order. */
  function CrawledChildren(web: Web, links: seq<Url>, depth: nat, maxDepth: nat, visited: set<Url>): (r: Fanout)
    ensures visited <= r.visited
    decreases maxDepth - depth, |links| + 1
  {
    if links == [] then Fanout([], visited)
    else
      var first := Crawled(web, links[0], depth, maxDepth, visited);
      var rest := CrawledChildren(web, links[1..], depth, maxDepth, first.visited);
      Fanout((if first.node.Some? then [first.node.value] else []) + rest.children, rest.visited)
  }

  /** The `visited` set shared by all branches of one crawl. */
  class VisitedSet {
    var urls: set<Url>

    constructor ()
      ensures urls == {}
    {
      urls := {};
    }
  }

  /** The link-extraction loop: same-site links not yet visited, each once. */
  method ExtractLinks(visited: VisitedSet, web: Web, content: string, url: Url) returns (links: seq<Url>)
    ensures links == Frontier(web, content, url, visited.urls)
  {
    var hrefs := web.hrefs(content, url);
    links := [];
    var i := 0;
    while i < |hrefs|
      invariant 0 <= i <= |hrefs|
      invariant links == Collect(hrefs[..i], web.netloc(url), web.netloc, visited.urls)
    {
      var full := hrefs[i];
      if web.netloc(full) == web.netloc(url) && full !in visited.urls && full !in links {
        links := links + [full];
      }
      assert hrefs[..i + 1][..i] == hrefs[..i];
      i := i + 1;
    }
    assert hrefs[..i] == hrefs;
  }

  /** `crawl(url, depth, max_depth, visited)`, with the child crawls run one at a time. */
  method Crawl(visited: VisitedSet, web: Web, url: Url, depth: nat, maxDepth: nat) returns (node: Option<CrawlNode>)
    modifies visited
    ensures Outcome(node, visited.urls) == Crawled(web, url, depth, maxDepth, old(visited.urls))
    decreases maxDepth - depth, 0
  {
    if depth > maxDepth || url in visited.urls {
      return None;
    }
    visited.urls := visited.urls + {url};
    var content := Fetch(web, url);
    if !Fetched(content) {
      return None;
    }
    var links := ExtractLinks(visited, web, content.value, url);
    var analysis := Analyze(web, content.value);
    if !HasDim(analysis.embedding) {
      return None;
    }
    var children := CrawlChildren(visited, web, links, depth + 1, maxDepth);
    CrawledExpands(web, url, depth, maxDepth, old(visited.urls));
    node := Some(CrawlNode(url, url, analysis.summary, analysis.pageType, analysis.embedding, children));
  }

  /**
   * The fan-out: `crawl_child(link)` for every link, keeping the results that are not None.
   * Each child crawl finishes before the next one starts.
   */
  method CrawlChildren(visited: VisitedSet, web: Web, links: seq<Url>, depth: nat, maxDepth: nat)
    returns (children: seq<CrawlNode>)
    modifies visited
    ensures Fanout(children, visited.urls) == CrawledChildren(web, links, depth, maxDepth, old(visited.urls))
    decreases maxDepth - depth, 1
  {
    children := [];
    var i := 0;
    while i < |links|
      invariant 0 <= i <= |links|
      invariant CrawledChildren(web, links, depth, maxDepth, old(visited.urls))
        == Resume(children, CrawledChildren(web, links[i..], depth, maxDepth, visited.urls))
    {
      CrawledChildrenStep(web, links[i..], depth, maxDepth, visited.urls);
      assert links[i..][1..] == links[i + 1..];
      var child := Crawl(visited, web, links[i], depth, maxDepth);
      if child.Some? {
        children := children + [child.value];
      }
      i := i + 1;
    }
    assert links[i..] == [];
  }

  /** The children found so far, followed by those the remaining links give. */
  function Resume(done: seq<CrawlNode>, rest: Fanout): Fanout {
    Fanout(done + rest.children, rest.visited)
  }

  /** One step of the fan-out: the first link's crawl, then the rest from the visited set it leaves. */
  lemma CrawledChildrenStep(web: Web, links: seq<Url>, depth: nat, maxDepth: nat, visited: set<Url>)
    requires links != []
    ensures var first := Crawled(web, links[0], depth, maxDepth, visited);
      forall done: seq<CrawlNode> ::
        Resume(done, CrawledChildren(web, links, depth, maxDepth, visited))
          == Resume(done + (if first.node.Some? then [first.node.value] else []),
                    CrawledChildren(web, links[1..], depth, maxDepth, first.visited))
  {
  }

  /** `crawl(url, depth, max_depth)` with no `visited` argument: the crawl starts from a fresh, empty set. */
  method CrawlFresh(web: Web, url: Url, depth: nat, maxDepth: nat) returns (tree: Option<CrawlNode>)
    ensures tree == Crawled(web, url, depth, maxDepth, {}).node
    ensures tree.Some? ==>
      && tree.value.url == url
      && DistinctUrls(Nodes(tree.value))
      && WithinDepth(tree.value, depth, maxDepth)
      && EmbeddingsHaveDim(tree.value)
      && SameSite(tree.value, web.netloc)
  {
    var visited := new VisitedSet();
    tree := Crawl(visited, web, url, depth, maxDepth);
    CrawlDedup(web, url, depth, maxDepth, {});
    CrawlShape(web, url, depth, maxDepth, {});
  }

  /** Every node of `ns` has a URL claimed after `before` and by `after`. */
  ghost predicate NewlyClaimed(ns: seq<CrawlNode>, before: set<Url>, after: set<Url>) {
    forall m :: m in ns ==> m.url in after && m.url !in before
  }

  /**
   * The guards of the crawl: a URL past the depth bound or already visited yields nothing
   * and leaves `visited` alone; otherwise the URL is claimed whatever happens next, and a
   * failed fetch or an invalid embedding yields nothing with no child crawled.
   */
  lemma CrawlGuards(web: Web, url: Url, depth: nat, maxDepth: nat, visited: set<Url>)
    ensures depth > maxDepth || url in visited ==> Crawled(web, url, depth, maxDepth, visited) == Outcome(None, visited)
    ensures depth <= maxDepth && url !in visited ==> url in Crawled(web, url, depth, maxDepth, visited).visited
    ensures depth <= maxDepth && url !in visited && !Fetched(Fetch(web, url))
      ==> Crawled(web, url, depth, maxDepth, visited) == Outcome(None, visited + {url})
    ensures depth <= maxDepth && url !in visited && Fetched(Fetch(web, url)) && !HasDim(Analyze(web, Fetch(web, url).value).embedding)
      ==> Crawled(web, url, depth, maxDepth, visited) == Outcome(None, visited + {url})
  {
  }

  /**
   * In the sequential schedule no URL occurs twice in a crawled tree, and every URL of the
   * tree was unvisited before the crawl and is visited after it.
   */
  lemma {:induction false} CrawlDedup(web: Web, url: Url, depth: nat, maxDepth: nat, visited: set<Url>)
    ensures var r := Crawled(web, url, depth, maxDepth, visited);
      r.node.Some? ==> DistinctUrls(Nodes(r.node.value)) && NewlyClaimed(Nodes(r.node.value), visited, r.visited)
    decreases maxDepth - depth, 0
  {
    var r := Crawled(web, url, depth, maxDepth, visited);
    if r.node.Some? {
      assert depth <= maxDepth && url !in visited;
      CrawledExpands(web, url, depth, maxDepth, visited);
      var claimed := visited + {url};
      var links := Frontier(web, Fetch(web, url).value, url, claimed);
      var fan := CrawledChildren(web, links, depth + 1, maxDepth, claimed);
      ChildrenDedup(web, links, depth + 1, maxDepth, claimed);
      var n := r.node.value;
      assert n.children == fan.children;
      assert Nodes(n) == [n] + NodesOf(fan.children);
      DistinctUrlsConcat([n], NodesOf(fan.children));
    }
  }

  lemma {:induction false} ChildrenDedup(web: Web, links: seq<Url>, depth: nat, maxDepth: nat, visited: set<Url>)
    ensures var r := CrawledChildren(web, links, depth, maxDepth, visited);
      DistinctUrls(NodesOf(r.children)) && NewlyClaimed(NodesOf(r.children), visited, r.visited)
    decreases maxDepth - depth, |links| + 1
  {
    if links != [] {
      var first := Crawled(web, links[0], depth, maxDepth, visited);
      var rest := CrawledChildren(web, links[1..], depth, maxDepth, first.visited);
      CrawlDedup(web, links[0], depth, maxDepth, visited);
      ChildrenDedup(web, links[1..], depth, maxDepth, first.visited);
      if first.node.Some? {
        var kids := [first.node.value] + rest.children;
        assert kids[0] == first.node.value && kids[1..] == rest.children;
        assert NodesOf(kids) == Nodes(first.node.value) + NodesOf(rest.children);
        DistinctUrlsConcat(Nodes(first.node.value), NodesOf(rest.children));
      } else {
        assert [] + rest.children == rest.children;
      }
    }
  }

  /**
   * The shape of a crawled tree: the returned node is titled by `url`; nodes sit between
   * `depth` and `maxDepth` and a node at `maxDepth` has no children; every embedding has
   * `Dim` components; every child is on its parent's site; and the root's children were all
   * unvisited when its links were extracted.
   */
  lemma {:induction false} CrawlShape(web: Web, url: Url, depth: nat, maxDepth: nat, visited: set<Url>)
    ensures var r := Crawled(web, url, depth, maxDepth, visited);
      r.node.Some? ==>
        && WithinDepth(r.node.value, depth, maxDepth)
        && EmbeddingsHaveDim(r.node.value)
        && SameSite(r.node.value, web.netloc)
        && forall c :: c in r.node.value.children ==> c.url !in visited && c.url != url
    decreases maxDepth - depth, 0
  {
    var r := Crawled(web, url, depth, maxDepth, visited);
    if r.node.Some? {
      assert depth <= maxDepth && url !in visited;
      CrawledExpands(web, url, depth, maxDepth, visited);
      var claimed := visited + {url};
      var content := Fetch(web, url).value;
      var links := Frontier(web, content, url, claimed);
      ChildrenShape(web, links, depth + 1, maxDepth, claimed);
      CollectFilters(web.hrefs(content, url), web.netloc(url), web.netloc, claimed);
    }
  }

  lemma {:induction false} ChildrenShape(web: Web, links: seq<Url>, depth: nat, maxDepth: nat, visited: set<Url>)
    ensures var r := CrawledChildren(web, links, depth, maxDepth, visited);
      && (depth > maxDepth ==> r.children == [])
      && forall c :: c in r.children ==>
           && c.url in links
           && WithinDepth(c, depth, maxDepth)
           && EmbeddingsHaveDim(c)
           && SameSite(c, web.netloc)
    decreases maxDepth - depth, |links| + 1
  {
    if links != [] {
      var first := Crawled(web, links[0], depth, maxDepth, visited);
      CrawlShape(web, links[0], depth, maxDepth, visited);
      ChildrenShape(web, links[1..], depth, maxDepth, first.visited);
    }
  }
}

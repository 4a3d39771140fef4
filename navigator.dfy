/**
 * The page navigator's `find_best_match` (app.py): a preorder walk of the crawl tree that
 * keeps the best-scoring node so far and the root-to-node path that reaches it.
 */
module Navigator {
  import opened Wrappers
  import opened CrawlTree

  /**
   * The fuzzy similarity of the keyword and a text, standing in for
   * `SequenceMatcher(None, keyword.lower(), text.lower()).ratio()`.
   */
  type Similarity = (string, string) -> real

  /** A node's score: the larger of its title's and its URL's similarity to the keyword. */
  function NodeScore(sim: Similarity, keyword: string, n: CrawlNode): (s: real)
    ensures s >= sim(keyword, n.title) && s >= sim(keyword, n.url)
    ensures s == sim(keyword, n.title) || s == sim(keyword, n.url)
  {
    var byTitle := sim(keyword, n.title);
    var byUrl := sim(keyword, n.url);
    if byTitle >= byUrl then byTitle else byUrl
  }

  /** The `best` dictionary: a score, a root-to-node path and the node (None while nothing matched). */
  datatype Best = Best(score: real, path: seq<CrawlNode>, node: Option<CrawlNode>)

  const Initial: Best := Best(0.0, [], None)

  /** `best` after the walk of the tree rooted at `n`, reached by `path`, starting from `b`. */
  function Visit(sim: Similarity, keyword: string, b: Best, n: CrawlNode, path: seq<CrawlNode>): Best
    decreases n
  {
    var here := path + [n];
    var s := NodeScore(sim, keyword, n);
    var b' := if s > b.score then Best(s, here, Some(n)) else b;
    VisitAll(sim, keyword, b', n.children, here)
  }

  function VisitAll(sim: Similarity, keyword: string, b: Best, cs: seq<CrawlNode>, path: seq<CrawlNode>): Best
    decreases cs
  {
    if cs == [] then b else VisitAll(sim, keyword, Visit(sim, keyword, b, cs[0], path), cs[1..], path)
  }

  /** A node of the walk together with the path that ends at it. */
  datatype Candidate = Candidate(node: CrawlNode, path: seq<CrawlNode>)

  /** The reference definition: the walk's (node, path) pairs in preorder, ... */
  function Candidates(n: CrawlNode, path: seq<CrawlNode>): (r: seq<Candidate>)
    decreases n
  {
    [Candidate(n, path + [n])] + CandidatesOf(n.children, path + [n])
  }

  function CandidatesOf(cs: seq<CrawlNode>, path: seq<CrawlNode>): seq<Candidate>
    decreases cs
  {
    if cs == [] then [] else Candidates(cs[0], path) + CandidatesOf(cs[1..], path)
  }

  /** ... and one step of the strict-improvement scan over them. */
  function Step(sim: Similarity, keyword: string, b: Best, c: Candidate): Best {
    var s := NodeScore(sim, keyword, c.node);
    if s > b.score then Best(s, c.path, Some(c.node)) else b
  }

  function Scan(sim: Similarity, keyword: string, b: Best, cs: seq<Candidate>): Best
    decreases cs
  {
    if cs == [] then b else Scan(sim, keyword, Step(sim, keyword, b, cs[0]), cs[1..])
  }

  lemma {:induction false} ScanConcat(sim: Similarity, keyword: string, b: Best, xs: seq<Candidate>, ys: seq<Candidate>)
    ensures Scan(sim, keyword, b, xs + ys) == Scan(sim, keyword, Scan(sim, keyword, b, xs), ys)
    decreases xs
  {
    if xs != [] {
      assert (xs + ys)[0] == xs[0] && (xs + ys)[1..] == xs[1..] + ys;
      ScanConcat(sim, keyword, Step(sim, keyword, b, xs[0]), xs[1..], ys);
    } else {
      assert xs + ys == ys;
    }
  }

  /** The recursive walk is the flat scan of its preorder candidates. */
  lemma {:induction false} VisitIsScan(sim: Similarity, keyword: string, b: Best, n: CrawlNode, path: seq<CrawlNode>)
    ensures Visit(sim, keyword, b, n, path) == Scan(sim, keyword, b, Candidates(n, path))
    decreases n
  {
    var here := path + [n];
    var b' := Step(sim, keyword, b, Candidate(n, here));
    VisitAllIsScan(sim, keyword, b', n.children, here);
    ScanConcat(sim, keyword, b, [Candidate(n, here)], CandidatesOf(n.children, here));
  }

  lemma {:induction false} VisitAllIsScan(sim: Similarity, keyword: string, b: Best, cs: seq<CrawlNode>, path: seq<CrawlNode>)
    ensures VisitAll(sim, keyword, b, cs, path) == Scan(sim, keyword, b, CandidatesOf(cs, path))
    decreases cs
  {
    if cs != [] {
      VisitIsScan(sim, keyword, b, cs[0], path);
      VisitAllIsScan(sim, keyword, Visit(sim, keyword, b, cs[0], path), cs[1..], path);
      ScanConcat(sim, keyword, b, Candidates(cs[0], path), CandidatesOf(cs[1..], path));
    }
  }

  /**
   * The scan never lowers the best score, ends at least as high as every candidate's score,
   * and either keeps `b` or ends at the FIRST candidate whose score is strictly above `b`'s
   * and is the maximum: every earlier candidate scores strictly less.
   */
  lemma {:induction false} ScanFindsFirstMaximum(sim: Similarity, keyword: string, b: Best, cs: seq<Candidate>)
    ensures var r := Scan(sim, keyword, b, cs);
      && b.score <= r.score
      && (forall i :: 0 <= i < |cs| ==> NodeScore(sim, keyword, cs[i].node) <= r.score)
      && (r == b || exists k :: 0 <= k < |cs| && FirstMaximumAt(sim, keyword, b, cs, k, r))
    decreases cs
  {
    if cs != [] {
      var b1 := Step(sim, keyword, b, cs[0]);
      var r := Scan(sim, keyword, b, cs);
      ScanFindsFirstMaximum(sim, keyword, b1, cs[1..]);
      assert r == Scan(sim, keyword, b1, cs[1..]);
      forall i | 0 <= i < |cs|
        ensures NodeScore(sim, keyword, cs[i].node) <= r.score
      {
        if i > 0 {
          assert cs[i] == cs[1..][i - 1];
        }
      }
      if r != b {
        if r == b1 {
          assert FirstMaximumAt(sim, keyword, b, cs, 0, r);
        } else {
          var k :| 0 <= k < |cs[1..]| && FirstMaximumAt(sim, keyword, b1, cs[1..], k, r);
          assert cs[1..][k] == cs[k + 1];
          forall j | 0 <= j < k + 1
            ensures NodeScore(sim, keyword, cs[j].node) < r.score
          {
            if j > 0 {
              assert cs[j] == cs[1..][j - 1];
            }
          }
          assert FirstMaximumAt(sim, keyword, b, cs, k + 1, r);
        }
      }
    }
  }

  /** `r` is the entry built from candidate `k`, above `b`, with every earlier candidate strictly below it. */
  ghost predicate FirstMaximumAt(sim: Similarity, keyword: string, b: Best, cs: seq<Candidate>, k: nat, r: Best)
    requires k < |cs|
  {
    && r == Best(NodeScore(sim, keyword, cs[k].node), cs[k].path, Some(cs[k].node))
    && b.score < r.score
    && forall j :: 0 <= j < k ==> NodeScore(sim, keyword, cs[j].node) < r.score
  }

  /** Every step of `q` goes from a node to one of its children. */
  ghost predicate IsDownwardPath(q: seq<CrawlNode>) {
    forall i :: 0 < i < |q| ==> q[i] in q[i - 1].children
  }

  /**
   * The candidates list the tree's nodes in preorder, and each candidate's path is the
   * given `path` extended by a downward path from `n` to the candidate's node.
   */
  lemma {:induction false} CandidatesFollowTree(n: CrawlNode, path: seq<CrawlNode>)
    ensures var cs := Candidates(n, path);
      && |cs| == |Nodes(n)|
      && (forall i :: 0 <= i < |cs| ==> cs[i].node == Nodes(n)[i])
      && forall i :: 0 <= i < |cs| ==> PathThrough(cs[i], path, n)
    decreases n
  {
    var here := path + [n];
    var rest := CandidatesOf(n.children, here);
    CandidatesOfFollowTree(n.children, here);
    var cs := Candidates(n, path);
    assert cs == [Candidate(n, here)] + rest;
    assert Nodes(n) == [n] + NodesOf(n.children);
    forall i | 0 <= i < |cs|
      ensures cs[i].node == Nodes(n)[i] && PathThrough(cs[i], path, n)
    {
      if i == 0 {
        assert cs[0] == Candidate(n, here);
      } else {
        var c := cs[i];
        assert c == rest[i - 1];
        var p := c.path;
        var child :| child in n.children && PathThrough(c, here, child);
        assert p[..|path|] == path && p[|path|] == n;
        forall j | |path| < j < |p|
          ensures p[j] in p[j - 1].children
        {
          if j == |path| + 1 {
            assert p[j] == child;
          }
        }
      }
    }
  }

  lemma {:induction false} CandidatesOfFollowTree(cs: seq<CrawlNode>, path: seq<CrawlNode>)
    ensures var r := CandidatesOf(cs, path);
      && |r| == |NodesOf(cs)|
      && (forall i :: 0 <= i < |r| ==> r[i].node == NodesOf(cs)[i])
      && forall i :: 0 <= i < |r| ==> exists child :: child in cs && PathThrough(r[i], path, child)
    decreases cs
  {
    if cs != [] {
      CandidatesFollowTree(cs[0], path);
      CandidatesOfFollowTree(cs[1..], path);
      var a := Candidates(cs[0], path);
      var b := CandidatesOf(cs[1..], path);
      var r := CandidatesOf(cs, path);
      assert r == a + b;
      assert NodesOf(cs) == Nodes(cs[0]) + NodesOf(cs[1..]);
      forall i | 0 <= i < |r|
        ensures exists child :: child in cs && PathThrough(r[i], path, child)
      {
        if i < |a| {
          assert r[i] == a[i] && PathThrough(r[i], path, cs[0]);
          assert cs[0] in cs;
        } else {
          assert r[i] == b[i - |a|];
          var child :| child in cs[1..] && PathThrough(b[i - |a|], path, child);
          assert child in cs;
        }
      }
      assert forall i :: 0 <= i < |r| ==> exists child :: child in cs && PathThrough(r[i], path, child);
    }
  }

  /**
   * The candidate's path is `path`, then `top`, then a downward path that ends at the
   * candidate's node.
   */
  ghost predicate PathThrough(c: Candidate, path: seq<CrawlNode>, top: CrawlNode) {
    && |path| < |c.path|
    && c.path[..|path|] == path
    && c.path[|path|] == top
    && c.path[|c.path| - 1] == c.node
    && forall j :: |path| < j < |c.path| ==> c.path[j] in c.path[j - 1].children
  }

  /** The shared `best` dictionary that `dfs` updates in place. */
  class BestSoFar {
    var score: real
    var path: seq<CrawlNode>
    var node: Option<CrawlNode>

    constructor ()
      ensures Value() == Initial
    {
      score, path, node := 0.0, [], None;
    }

    function Value(): Best
      reads this
    {
      Best(score, path, node)
    }
  }

  /** The nested `dfs(node, path)`. */
  method Dfs(best: BestSoFar, sim: Similarity, keyword: string, node: CrawlNode, path: seq<CrawlNode>)
    modifies best
    ensures best.Value() == Visit(sim, keyword, old(best.Value()), node, path)
    decreases node
  {
    var score := NodeScore(sim, keyword, node);
    if score > best.score {
      best.score := score;
      best.path := path + [node];
      best.node := Some(node);
    }
    var i := 0;
    while i < |node.children|
      invariant 0 <= i <= |node.children|
      invariant Visit(sim, keyword, old(best.Value()), node, path)
        == VisitAll(sim, keyword, best.Value(), node.children[i..], path + [node])
    {
      assert node.children[i..][0] == node.children[i] && node.children[i..][1..] == node.children[i + 1..];
      Dfs(best, sim, keyword, node.children[i], path + [node]);
      i := i + 1;
    }
  }

  /** A walk never lowers `best`'s score: each `dfs` call leaves it at least as high as it found it. */
  lemma VisitNeverLowers(sim: Similarity, keyword: string, b: Best, n: CrawlNode, path: seq<CrawlNode>)
    ensures b.score <= Visit(sim, keyword, b, n, path).score
  {
    VisitIsScan(sim, keyword, b, n, path);
    ScanFindsFirstMaximum(sim, keyword, b, Candidates(n, path));
  }

  /** The walk from `Initial` ends at least as high as 0 and as every node of the tree. */
  lemma BestMatchIsMaximal(tree: CrawlNode, sim: Similarity, keyword: string)
    ensures var r := Visit(sim, keyword, Initial, tree, []);
      && r.score >= 0.0
      && forall m :: m in Nodes(tree) ==> NodeScore(sim, keyword, m) <= r.score
  {
    var cs := Candidates(tree, []);
    VisitIsScan(sim, keyword, Initial, tree, []);
    ScanFindsFirstMaximum(sim, keyword, Initial, cs);
    CandidatesFollowTree(tree, []);
    forall m | m in Nodes(tree)
      ensures NodeScore(sim, keyword, m) <= Scan(sim, keyword, Initial, cs).score
    {
      var i :| 0 <= i < |Nodes(tree)| && Nodes(tree)[i] == m;
      assert cs[i].node == m;
    }
  }

  /**
   * The walk from `Initial` keeps `Initial` exactly when it finds no node, and otherwise ends
   * at the first node in preorder whose score is the maximum, which is above 0, with the path
   * from the root down to that node.
   */
  lemma BestMatchIsFirstMaximum(tree: CrawlNode, sim: Similarity, keyword: string)
    ensures var r := Visit(sim, keyword, Initial, tree, []);
      && (r.node.None? <==> r == Initial)
      && (r.node.Some? ==>
            exists k :: 0 <= k < |Nodes(tree)| && Nodes(tree)[k] == r.node.value
              && r.score == NodeScore(sim, keyword, r.node.value) > 0.0
              && forall j :: 0 <= j < k ==> NodeScore(sim, keyword, Nodes(tree)[j]) < r.score)
      && (r.node.Some? ==>
            && |r.path| > 0
            && r.path[0] == tree
            && r.path[|r.path| - 1] == r.node.value
            && IsDownwardPath(r.path))
  {
    var cs := Candidates(tree, []);
    var r := Visit(sim, keyword, Initial, tree, []);
    VisitIsScan(sim, keyword, Initial, tree, []);
    ScanFindsFirstMaximum(sim, keyword, Initial, cs);
    CandidatesFollowTree(tree, []);
    if r != Initial {
      var k :| 0 <= k < |cs| && FirstMaximumAt(sim, keyword, Initial, cs, k, r);
      assert PathThrough(cs[k], [], tree);
      assert cs[k].path[..0] == [];
      forall j | 0 <= j < k
        ensures NodeScore(sim, keyword, Nodes(tree)[j]) < r.score
      {
        assert cs[j].node == Nodes(tree)[j];
      }
      assert Nodes(tree)[k] == r.node.value;
    }
  }

  /**
   * `find_best_match(tree, keyword)`. Nothing scoring above 0 leaves `best` as it started;
   * otherwise the result is the first node in preorder with the maximum score, with the path
   * from the root down to it.
   */
  method FindBestMatch(tree: CrawlNode, sim: Similarity, keyword: string) returns (result: Best)
    ensures result.score >= 0.0
    ensures forall m :: m in Nodes(tree) ==> NodeScore(sim, keyword, m) <= result.score
    ensures result.node.None? <==> result == Initial
    ensures result.node.Some? ==>
      exists k :: 0 <= k < |Nodes(tree)| && Nodes(tree)[k] == result.node.value
        && result.score == NodeScore(sim, keyword, result.node.value) > 0.0
        && forall j :: 0 <= j < k ==> NodeScore(sim, keyword, Nodes(tree)[j]) < result.score
    ensures result.node.Some? ==>
      && |result.path| > 0
      && result.path[0] == tree
      && result.path[|result.path| - 1] == result.node.value
      && IsDownwardPath(result.path)
  {
    var best := new BestSoFar();
    Dfs(best, sim, keyword, tree, []);
    result := best.Value();
    BestMatchIsMaximal(tree, sim, keyword);
    BestMatchIsFirstMaximum(tree, sim, keyword);
  }
}

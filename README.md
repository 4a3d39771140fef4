# Agentic AI Crawler: a verified model of the crawl, index and navigation core

This project models in Dafny the deterministic logic of the Agentic AI Crawler, with the
network, the language models, FAISS and the HTML parser replaced by oracles:

- **The crawl** (`crawler.py`). `crawl` walks a site from a root URL and builds a tree of pages.
  It stops past `max_depth` and at URLs that are already visited. It claims a URL in the
  shared `visited` set before fetching it, and drops pages whose fetch fails or whose
  embedding does not have 768 components. It follows only links on the page's own network
  location that were not yet visited.
  - `Crawler.Crawled` is the crawl as a pure function of a `Web` (the oracles) and the
    visited set.
  - `Crawler.Crawl` is the imperative recursive method over a shared `VisitedSet` object,
    proved equal to that function.
  - The lemmas prove the guards, deduplication, the depth bound, the embedding gate and the
    same-site rule.
- **Index preparation and search results** (`semantic_search.py`).
  - Flattening the tree into index entries, skipping nodes with invalid embeddings while
    still visiting their children.
  - The guards of `build_faiss_index`.
  - The mapping of the `(distance, index)` pairs the flat L2 index reports to scored results.
- **Page navigation** (`app.py`, `find_best_match`). A preorder walk keeps the best-scoring
  node so far and the root-to-node path to it. The fuzzy `SequenceMatcher` ratio is a
  parameter.
- **Model reply handling** (`summarizer.py`).
  - The 768-or-empty gate of `get_embedding`.
  - The cleanup of the text model's reply before JSON parsing: Python's `strip`, code-fence
    extraction, and the cut at the first `{`.

Modules:

| module | file |
|---|---|
| `Wrappers` | `wrappers.dfy` |
| `Embeddings` | `embeddings.dfy` |
| `CrawlTree` | `crawl_tree.dfy` |
| `Crawler` | `crawler.dfy` |
| `SemanticSearch` | `semantic_search.dfy` |
| `Navigator` | `navigator.dfy` |
| `Summarizer` | `summarizer.dfy` |

Each operation changes state in the same way the source does:
- The crawl updates a shared set in place.
- `recurse` appends to an outer list.
- `dfs` updates a shared `best` dictionary.

So each of these is a method that updates a small class instance, and its `ensures` ties the new state to a pure
function. The properties are proved about that function.

Two behaviours of the code need a note:
- **Search with `top_k` above the index size.** The code emits one result per pair FAISS
  reports, padding included, so each padding slot repeats the last entry (see Findings).
- **Link set and child order.** The link set is a Python `set` and children arrive in thread
  completion order. The model fixes one order: links in document order, each kept at its
  first occurrence. It crawls them one at a time.

## Model

| member | source | states |
|---|---|---|
| Embeddings.ToFloats | semantic_search.py:26-27 | `[float(x) for x in e]` succeeds iff every component is numeric; it then has the same length and the same values |
| CrawlTree.Nodes | semantic_search.py:44-45 | specification helper over the tree that crawler.py:55-62 builds: the preorder listing that `recurse` and `dfs` traverse; it starts at the root and is never empty |
| Crawler.CollectFilters | crawler.py:27-32 | a URL is in the link set iff it is one of the page's hrefs, has the page's netloc and is not visited; no link occurs twice |
| Crawler.Crawled | crawler.py:8-62 | the crawl only grows `visited`; a returned node has not been visited before, is visited after, and has `url` as both url and title |
| Crawler.CrawledChildren | crawler.py:44-53 | crawling a list of links one after another only grows `visited` |
| Crawler.ExtractLinks | crawler.py:27-32 | the link-extraction loop yields exactly the link set of the page against the current `visited` |
| Crawler.Crawl | crawler.py:8-62 | the recursive crawl over the shared visited set returns the node, and leaves the visited set, that the sequential crawl function gives |
| Crawler.CrawlChildren | crawler.py:42-53 | the fan-out loop collects exactly the non-None child results in link order, and leaves `visited` as the sequential schedule does |
| Crawler.CrawlFresh | crawler.py:8-10 | a crawl from an empty visited set returns a tree rooted at `url` with distinct URLs, within the depth bound, with 768-component embeddings, and every child on its parent's site |
| Crawler.CrawlGuards | crawler.py:12-40 | past `max_depth` or already visited: None and `visited` unchanged; otherwise `url` is claimed whatever follows; a failed fetch or an invalid embedding gives None with `visited` grown by `url` alone, so no child crawl has started |
| Crawler.CrawlDedup | crawler.py:12-15 | in the sequential schedule no URL occurs twice in a returned tree, and every URL of the tree was unvisited before and is visited after |
| Crawler.ChildrenDedup | crawler.py:44-53 | the trees of the fan-out share no URL, and all their URLs were claimed during it |
| Crawler.CrawlShape | crawler.py:12-45 | nodes sit between `depth` and `max_depth`, and a node at `max_depth` has no children; every embedding has 768 components; every child shares its parent's netloc; the root's children were unvisited when its links were extracted |
| Crawler.ChildrenShape | crawler.py:44-53 | every child kept by the fan-out comes from a link of the parent and has the shape above; past `max_depth` nothing is kept |
| SemanticSearch.EntryFor | semantic_search.py:24-34 | an entry is emitted iff the embedding has exactly 768 components all accepted by `float()`; it carries the node's url and summary unchanged and the converted values |
| SemanticSearch.FlattenIsPreorderFilter | semantic_search.py:23-47 | what `recurse` appends for a tree is the preorder of its nodes filtered by the gate; skipped nodes' children are still visited |
| SemanticSearch.FlattenAllIsPreorderFilter | semantic_search.py:44-45 | the same for a sequence of sibling trees |
| SemanticSearch.SelectValidSpec | semantic_search.py:24-34 | no more entries than nodes; every valid node's entry is emitted and every emitted entry comes from some node; every emitted embedding has 768 values |
| SemanticSearch.AppendEntry | semantic_search.py:24-34 | the gate step appends the node's entry when it passes and nothing otherwise |
| SemanticSearch.Recurse | semantic_search.py:23-45 | the nested recursion appends exactly the flattening of the subtree to the shared list |
| SemanticSearch.ExtractNodesWithEmbeddings | semantic_search.py:17-49 | returns the preorder filter of the tree's nodes, no more entries than nodes, each with 768 values |
| SemanticSearch.BuildFaissIndex | semantic_search.py:51-66 | fails with NoNodes iff the list is empty; succeeds iff it is non-empty and every embedding has 768 values; on success returns the nodes unchanged and one index row per node |
| SemanticSearch.ExtractedEntriesAreIndexable | semantic_search.py:47-66 | a non-empty extraction can always be indexed |
| SemanticSearch.PyIndex | semantic_search.py:85-86 | Python's `nodes[idx]` for an index in range names a position below `len(nodes)` |
| SemanticSearch.Search | semantic_search.py:82-90 | succeeds iff every index among the zipped pairs is a valid Python index; then one result per pair, in order, with url and summary from `nodes[idx]` and score `1 - dist`; distance 0 gives score 1; a larger distance gives a strictly smaller score |
| SemanticSearch.PaddingNamesLastEntry | semantic_search.py:85-86 | as written, FAISS's padding index -1 passes Python's indexing of a non-empty list and names its last entry |
| SemanticSearch.Neighbours | semantic_search.py:82-88 | the corrected mapping succeeds iff every slot is padding or a valid position, and gives at most one result per slot |
| SemanticSearch.NeighboursClamp | semantic_search.py:80-88 | with `m` neighbours followed by padding, the corrected mapping gives exactly `m` results, the i-th from `nodes[indices[i]]` with score `1 - distances[i]` |
| SemanticSearch.NeighboursErrorPersists | semantic_search.py:82-85 | the first invalid index decides the error of every longer prefix |
| SemanticSearch.SearchNeighbours | semantic_search.py:82-90 | the corrected result loop computes the corrected mapping of the zipped pairs |
| Navigator.NodeScore | app.py:86-89 | a node's score is the larger of its title's and its url's similarity: at least both, and equal to one of them |
| Navigator.VisitIsScan | app.py:83-96 | the recursive walk from any starting `best` equals a left-to-right scan of the (node, path) pairs in preorder |
| Navigator.VisitAllIsScan | app.py:95-96 | the same for the loop over the children |
| Navigator.ScanFindsFirstMaximum | app.py:90-93 | the strict-improvement scan never lowers the score, ends at least as high as every candidate, and either keeps its start or ends at the first candidate with the maximum score |
| Navigator.CandidatesFollowTree | app.py:92-96 | the walk's candidates are the tree's nodes in preorder, and each path is the prefix, then the root, then a downward path ending at that node |
| Navigator.CandidatesOfFollowTree | app.py:95-96 | the same for sibling trees, each path going through one of the siblings |
| Navigator.Dfs | app.py:83-96 | `dfs` leaves the shared `best` equal to the walk function applied to its value before the call |
| Navigator.VisitNeverLowers | app.py:90-93 | a walk never lowers `best`'s score |
| Navigator.BestMatchIsMaximal | app.py:80-99 | the final score is at least 0 and at least every node's score |
| Navigator.BestMatchIsFirstMaximum | app.py:81-96 | `best` keeps its initial value iff no node is found; otherwise its node is the first node in preorder with the maximum score, which is above 0, and its path runs from the root down to that node |
| Navigator.FindBestMatch | app.py:80-99 | `find_best_match` delivers all of the above about its result |
| Navigator.BestSoFar.constructor | app.py:81 | `best` starts as score 0, empty path and no node |
| Summarizer.GetEmbedding | summarizer.py:17-40 | the result is `[]` or has exactly 768 components; it is non-empty iff the call returned an embedding of 768 components, and then it is that embedding unchanged; a raised call gives `[]` |
| Summarizer.TrimStart | summarizer.py:57 | removes a whitespace-only prefix and leaves a result that does not start with whitespace |
| Summarizer.TrimEnd | summarizer.py:57 | removes a whitespace-only suffix and leaves a result that does not end with whitespace |
| Summarizer.Strip | summarizer.py:57 | `strip()` is no longer than its argument and neither starts nor ends with whitespace |
| Summarizer.StripRemovesOnlySpace | summarizer.py:57 | `strip()` returns a contiguous slice of its argument, and everything outside the slice is whitespace |
| Summarizer.Find | summarizer.py:66 | `find` returns -1 iff the pattern does not occur, and otherwise the first index where it occurs |
| Summarizer.PromptEmbedsExcerpt | summarizer.py:46-54 | the prompt carries the content's first min(len, 2000) characters between the fixed head and tail, and all of a content of at most 2000 characters |
| Summarizer.UnfenceTakesFirstSegment | summarizer.py:62-63 | a reply is unfenced only if it starts with ``` and has another ``` after index 3; it then becomes the stripped text between the opening fence and the first later fence; any other reply is unchanged |
| Summarizer.FromFirstBrace | summarizer.py:66-68 | with a `{` present, the result is the suffix from the first `{` and starts with `{`; without one the text is unchanged |
| Summarizer.SummarizeOutcomes | summarizer.py:55-74 | a parsed object yields its `summary` and `type` entries, `""` for a missing key; a failed model call, a failed parse or a non-object yields ("Summary failed", "Unknown") |

## Left out

- Concurrency: the thread pool of crawler.py:48-53 is modelled by one sequential schedule. Its check-then-add race on `visited` (lines 12 and 15 are separate steps) is not modelled. So the no-duplicate-URL property holds for the sequential schedule only.
- Crawler.MaxWorkers: the model has no threads, so the worker bound has no effect.
- Children order: real completion order is nondeterministic. The model uses link discovery order.
- Exceptions raised by `urljoin`/`urlparse` (an href such as `http://[x`) or by the Selenium driver are not modelled: the `Web` oracles are total. In the source such an exception is re-raised by `future.result()` (crawler.py:51) and aborts every enclosing crawl, so the whole tree is lost.
- Fetching and Selenium (`get_page_content` and the `use_selenium` flag in utils.py) are the `fetch` oracle. utils.py is otherwise not part of this model.
- `summarize_content_from_html` is folded into the `analyze` oracle, which may return any summary, type and embedding for a page. In utils.py the embedding is `[]` only for empty content, an exception there, or a failed embedding call (`get_embedding` at summarizer.py:36-40). A page whose text-model call fails or whose reply does not parse gets the summary "Summary failed" (summarizer.py:72-74). That summary is still embedded, so the page stays in the tree when the embedding call succeeds. The unconstrained oracle admits that case.
- HTML parsing, `urljoin` and `urlparse` are the `hrefs` and `netloc` oracles. `json.loads` is the `parseJson` oracle. JSON values that are not strings are not modelled.
- The Gemini calls are oracles: the text model's reply and the embedding call's reply are inputs. So are the query embedding and FAISS's search, whose `(distances, indices)` row is an input.
- FAISS and numpy. Vectors are `real`, not float32. The index is the list of its rows. For rows of unequal length, numpy's behaviour is modelled as the error RaggedRows.
- Python typing. The `isinstance(embedding, list)` tests and a node without an `embedding` key are not modelled, because every embedding in the model is a list.
- Summarizer.PromptEmbedsExcerpt: the prompt is stated in characters (code points), as Python slices it. The model's tokenisation is not modelled.
- Python's `str.split("```")[1]` is stated only for texts that pass the fence test, when the segment ends at the first fence at index 3 or later. That is the only case the code reaches.
- Printing, the Streamlit interface (app.py outside `find_best_match`), the screenshots of `capture_screenshot` in utils.py (called only by the navigator interface), `render_tree` in tree_visualizer.py and gemini_vision.py are user interface or I/O. They are not part of this model.

## Findings

| source | as written | input that shows it | evidently intended | confidence | as-written member | corrected member |
|---|---|---|---|---|---|---|
| semantic_search.py:83-88 | each `(dist, idx)` pair becomes a result via `nodes[idx]` | one indexed entry and `top_k = 5`: FAISS reports indices `[0, -1, -1, -1, -1]`, and `nodes[-1]` gives the one entry again, four times | padding slots, which FAISS uses for a missing neighbour, yield no result, so `top_k` above the index size gives one result per entry | medium, not executed | SemanticSearch.PaddingNamesLastEntry | SemanticSearch.NeighboursClamp |

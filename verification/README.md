# Broken-link crawler: a verified model

The crawler starts at a root URL and fetches pages. From each page it extracts
the hyperlinks and checks every one of them with its own GET, reporting the
links that answer 4xx or 5xx. It then follows each link that resolves against
the page's URL, one level deeper, up to a maximum depth. A shared visited set
makes sure no URL is crawled twice.

This project models the three pieces of logic in `src/main.go` that can be
stated without the network, the HTML parser or the goroutines:

- **Link extraction** (`extract.dfy`, module `Extract`). The parsed document is
  a `Node` datatype (node kind, tag, attributes, children in sibling order).
  The extractor is the recursive method `Walk`. It keeps the source's loop over
  the children and its loop over the attributes, which stops at the first
  `href`. `Walk` is proved equal to the pre-order specification
  `DocumentLinks`. That specification is in turn shown to be "each node of the
  pre-order listing contributes its own link".
- **Link health check** (`health.dfy`, module `Health`). Each link's check
  copies the link and records the status of a GET on its URL, with 0 for a
  request that got no response. Checks with a status in [400, 600) send their
  copy on the results channel. The collector takes results in whatever order
  the checks finish: `CheckLinks` lets any unfinished check deliver next. Its
  result is therefore specified as a multiset. It equals the multiset of the
  ordered reference filter `BrokenLinks`.
- **Visited set and crawl** (`crawl.dfy`, module `Crawl`). `VisitedSet.Claim`
  checks and inserts in one step, which is the section under the mutex.
  `Crawl` is the synchronous part of the source's `crawl`: the depth check and
  the claim. It also runs the start of the goroutine it spawns, namely the
  page fetch and the health check. The goroutines are a table: one `Visit` per
  claimed URL, plus each goroutine's position in its loop over the page's
  links. `Run` is `main` plus `wg.Wait()`. It repeatedly lets any goroutine
  that still has links follow its next one (`FollowNextLink`) until none is
  left. This covers every interleaving of the child crawls of different pages.
  `Run` terminates because of a ghost bound on the remaining work (`Total`),
  which is finite because depth is bounded.

The network and URL resolution are parameters, bundled in `World`:
`get: string -> HttpResult` stands for `http.Get` with `html.Parse` applied to
the body, and `resolve: (string, string) -> Option<string>` stands for
`resolveURL`. As in the source, the health check fetches each link's href
exactly as it appears in the page (`link.URL`), not the resolved URL; the
model keeps this.

## Model

| member | source | states |
|---|---|---|
| `Extract.FirstHrefIsFirst` | src/main.go:119-124 | The attribute scan finds nothing exactly when no attribute is keyed `href`. Otherwise it yields the value of the first such attribute, and of no later one. |
| `Extract.FindHref` | src/main.go:119-124 | The loop over the attributes, which stops at the first `href`, returns exactly `FirstHref`. |
| `Extract.OwnLinksOfAnchor` | src/main.go:118-124 | A node contributes at most one link. It contributes one exactly when it is an element with tag `a` that has some `href` attribute. That link is the first `href`'s value, with status 0. |
| `Extract.Walk` | src/main.go:117-129 | The recursive closure appends to the collected links exactly the links of the subtree: the node's own link first, then its children's subtrees from first to last sibling. |
| `Extract.ExtractLinks` | src/main.go:114-131 | The result equals `DocumentLinks(doc)`, a function of the tree alone. So two runs on the same tree give the same sequence, and the tree, an immutable value, is not changed. |
| `Extract.DocumentLinksInPreOrder` | src/main.go:117-129 | The extracted links are the links of the tree's nodes taken in document (pre-)order. |
| `Extract.ChildLinksInPreOrder` | src/main.go:126-128 | The links of the first k children are the links of those children's pre-order listings, concatenated in sibling order. |
| `Extract.DocumentLinksMembers` | src/main.go:114-131 | There are at most as many links as nodes, and every link has status 0. A link is present exactly when some node of the tree contributes it. |
| `Health.BrokenLinksMembers` | src/main.go:162-164 | The broken set has at most one entry per input link. It holds only statuses in [400, 600). A checked copy is in it exactly when its status is in that range. |
| `Health.Classification` | src/main.go:162-167 | 404 and 503 are broken; 200, 301 and a failed request (status 0) are not. A link's checked copy is reported exactly when its status is broken. |
| `Health.RemoveCheck` | src/main.go:154-180 | Whichever unfinished check delivers next, its result plus what the other checks will deliver is, as a multiset, what all of them deliver: nothing is lost or duplicated. |
| `Health.FetchStatus` | src/main.go:186-195 | A check's copy keeps the link's URL. Its status becomes the response's code, or 0 when the request got no response. |
| `Health.CheckLinks` | src/main.go:149-183 | After every check has finished, the result is, as a multiset, exactly the checked copies with status in [400, 600). It has at most as many entries as there are links. The caller's links are values and stay unchanged. |
| `Crawl.FetchWebPage` | src/main.go:93-111 | The outcome is `PageOf`, checked in this order: no response gives a transport failure; a status other than 200 gives a status failure; a body the parser rejects gives a parse failure. Otherwise the page has the requested URL and its links in document order, each with status 0. |
| `Crawl.VisitedSet.constructor` | src/main.go:41 | The visited set starts empty. |
| `Crawl.VisitedSet.Claim` | src/main.go:57-63 | Returns true exactly when the URL was not yet recorded. Afterwards it is recorded: the set only grows, and a URL already present changes nothing. |
| `Crawl.Crawl` | src/main.go:52-76 | Beyond the depth bound, or for a URL already claimed, nothing changes and no goroutine is spawned. Otherwise the URL is claimed. A new goroutine enters the table at the start of its link loop, with the page fetch and, for a fetched page, its broken links. |
| `Crawl.FollowNextLink` | src/main.go:83-88 | One goroutine follows its next href: its position advances by one and every other position stays. When the href does not resolve, the child is too deep or its URL is already claimed, nothing else changes. Otherwise the resolved URL is added to the visited set, and exactly one goroutine is appended at one level deeper, at position 0, with that URL. The table invariant is kept: claims are unique, depths within the bound, provenance, and the hrefs followed so far are claimed. The remaining work strictly decreases. |
| `Crawl.OnlyRootAtDepthZero` | src/main.go:53-55 | Every goroutine after the first sits at depth 1 or more. So a crawl bounded at depth 0 fetches the root alone. |
| `Crawl.Run` | src/main.go:41-90 | The crawl terminates, and when it does: no URL was fetched twice, and the visited set is exactly the fetched URLs. Every fetch happened at a depth in [0, maxDepth], the root first at depth 0 (nothing when maxDepth < 0). Every later URL came from an href that resolved on an earlier fetched page one level up. Every page above the bound had all its resolving hrefs claimed. With maxDepth 0 only the root is fetched. |

## Left out

- Network I/O (`http.Get` in `fetchWebPage` and `fetchStatus`): replaced by the parameter `World.get`. It is a function of the URL, so the page fetch and every health check of the same URL see the same outcome. The model assumes that every GET returns, with a response or an error. The source sets no timeout (src/main.go:94 and 187), so a server that never answers stalls `wg.Wait()` forever. The termination that `Crawl.Run` states holds only under this assumption.
- The HTML parser `html.Parse`: its output is the `Node` datatype, or `None` in `HttpResult.Response` when it rejects the body. First-child and next-sibling pointers are a sequence of children.
- URL reference resolution (`url.Parse`, `baseURL.Parse`, `String()` in `resolveURL`): an uninterpreted partial function `World.resolve`. The resolution examples of RFC 3986 are not modelled.
- Goroutines, `sync.WaitGroup`, `sync.Mutex` and the results channel with its closer goroutine are replaced by sequential steps. In the model, the claim, the page fetch and the health check happen in one step. The fetch and check touch no shared state and depend only on the URL, so no observable outcome is lost. The link loops of different goroutines interleave one href at a time.
- Flag parsing and validation in `main`, and all log output, including `verbose` diagnostics and the printing of broken links. The broken links are recorded in each `Visit` instead.
- The visited map `map[string]bool` is a `set<string>`, since only `true` is ever stored.
- Go's 64-bit `int` is unbounded here. Depths never exceed `maxDepth + 1`, and status codes are taken as given.
- Health.CheckLinks: "the caller's slice is not changed" holds because links are immutable values here. Sharing a Go slice's backing array between caller and callee is not modelled.
- Crawl.Run: states safety and closure properties only. Which URLs get visited, and at which depth, depends on the schedule: a URL first claimed along a deep path is not revisited along a shallow one. So it does not state that every URL within distance d of the root is visited.

/** The crawl: a shared visited set with an atomic check-and-mark, the
    depth-bounded recursive crawl, and the wait for every spawned goroutine.
    Goroutines are modelled by a table: one entry per claimed URL, recording
    the fetched page and the health-check result, and beside it how far that
    goroutine has got in its loop over the page's links. Each step of the
    scheduler lets any unfinished goroutine follow its next link, so every
    interleaving of the child crawls of different pages is covered. */
module Crawl {
  import opened Wrappers
  import opened Web
  import opened Extract
  import opened Health

  /** What the crawler does not compute itself: HTTP GET (with the HTML parser
      applied to the body) and reference resolution of an href against a base. */
  datatype World = World(get: string -> HttpResult, resolve: (string, string) -> Option<string>)

  /** Why fetching a page failed. */
  datatype FetchError = TransportFailed | BadStatus(code: int) | ParseFailed

  /** The page fetch: no response, then a status other than 200, then a body
      the parser rejects are failures, checked in that order; otherwise the
      page and its links in document order. */
  function PageOf(get: string -> HttpResult, url: string): Result<WebPage, FetchError>
  {
    match get(url)
    case TransportError => Failure(TransportFailed)
    case Response(code, body) =>
      if code != 200 then Failure(BadStatus(code))
      else match body
        case None => Failure(ParseFailed)
        case Some(doc) => Success(WebPage(url, DocumentLinks(doc)))
  }

  method FetchWebPage(get: string -> HttpResult, url: string) returns (r: Result<WebPage, FetchError>)
    ensures r == PageOf(get, url)
    ensures r.Success? ==> r.value.url == url && forall l :: l in r.value.links ==> l.status == 0
  {
    match get(url)
    case TransportError =>
      r := Failure(TransportFailed);
    case Response(code, body) =>
      if code != 200 {
        r := Failure(BadStatus(code));
      } else if body.None? {
        r := Failure(ParseFailed);
      } else {
        var links := ExtractLinks(body.value);
        DocumentLinksMembers(body.value);
        r := Success(WebPage(url, links));
      }
  }

  /** The set of URLs already claimed in this crawl. */
  class VisitedSet {
    var urls: set<string>

    constructor ()
      ensures urls == {}
    {
      urls := {};
    }

    /** Check and mark as one step (the section under the mutex): true when
        the URL was new and is now recorded, false with nothing changed when
        it was already there. */
    method Claim(url: string) returns (claimed: bool)
      modifies this
      ensures claimed <==> url !in old(urls)
      ensures urls == old(urls) + {url}
    {
      if url in urls {
        return false;
      }
      urls := urls + {url};
      return true;
    }
  }

  /** One claimed URL: the depth it was claimed at, the outcome of fetching it,
      and (for a fetched page) the broken links the health check reported. */
  datatype Visit = Visit(url: string, depth: int, page: Result<WebPage, FetchError>, broken: seq<Link>)

  /** The number of links the goroutine of `v` loops over. */
  function LinkCount(v: Visit): nat
  {
    if v.page.Success? then |v.page.value.links| else 0
  }

  /** The goroutine of `v`, at position `pos` of its link loop, still has work. */
  predicate Running(v: Visit, pos: nat)
  {
    pos < LinkCount(v)
  }

  /** `v` records what the crawler observes for its URL: the page fetch, and
      for a fetched page the broken links, in any order. */
  ghost predicate Conforms(world: World, v: Visit)
  {
    v.page == PageOf(world.get, v.url) &&
    if v.page.Success? then multiset(v.broken) == multiset(BrokenLinks(world.get, v.page.value.links))
    else v.broken == []
  }

  /** The URLs recorded in the table. */
  ghost function UrlsOf(log: seq<Visit>): set<string>
  {
    set i | 0 <= i < |log| :: log[i].url
  }

  /** No URL appears twice in the table, so none is fetched twice. */
  ghost predicate Unique(log: seq<Visit>)
  {
    forall i, j :: 0 <= i < j < |log| ==> log[i].url != log[j].url
  }

  /** `child` was claimed by the goroutine of `parent`: the parent page was
      fetched, one of its hrefs resolves to the child's URL, and the child is
      one level deeper. */
  ghost predicate SpawnedBy(world: World, parent: Visit, child: Visit)
  {
    parent.page.Success? && child.depth == parent.depth + 1 &&
    exists k :: 0 <= k < |parent.page.value.links| &&
      world.resolve(parent.url, parent.page.value.links[k].url) == Some(child.url)
  }

  /** Every one of the first `n` links of `v` that resolves is in `urls`. */
  ghost predicate ClaimedUpTo(world: World, v: Visit, n: nat, urls: set<string>)
  {
    v.page.Success? ==>
      forall k :: 0 <= k < n && k < |v.page.value.links| ==>
        var r := world.resolve(v.url, v.page.value.links[k].url);
        r.Some? ==> r.value in urls
  }

  /** The synchronous part of crawl and the start of the goroutine it spawns:
      stop beyond the depth bound, claim the URL (stop if it was taken), then
      fetch the page and check its links. The new goroutine enters the table at
      position 0 of its link loop. */
  method Crawl(world: World, visited: VisitedSet, url: string, maxDepth: int, depth: int,
               log: seq<Visit>, progress: seq<nat>)
    returns (log': seq<Visit>, progress': seq<nat>)
    modifies visited
    ensures depth > maxDepth || url in old(visited.urls) ==>
              visited.urls == old(visited.urls) && log' == log && progress' == progress
    ensures depth <= maxDepth && url !in old(visited.urls) ==>
              visited.urls == old(visited.urls) + {url} && progress' == progress + [0] &&
              |log'| == |log| + 1 && log'[..|log|] == log &&
              log'[|log|].url == url && log'[|log|].depth == depth && Conforms(world, log'[|log|])
  {
    log', progress' := log, progress;
    if depth > maxDepth {
      return;
    }
    var claimed := visited.Claim(url);
    if !claimed {
      return;
    }
    var page := FetchWebPage(world.get, url);
    var broken: seq<Link> := [];
    if page.Success? {
      broken := CheckLinks(world.get, page.value.links);
    }
    log' := log + [Visit(url, depth, page, broken)];
    progress' := progress + [0];
  }

  /** An upper bound on the scheduler steps taken by the goroutine that
      crawls `url` at `depth` and by everything it spawns: one per link it
      follows. Finite because depth is bounded. */
  ghost function Work(world: World, maxDepth: int, url: string, depth: int): nat
    decreases maxDepth - depth, 1, 0
  {
    if depth > maxDepth then 0
    else match PageOf(world.get, url)
      case Success(p) => Steps(world, maxDepth, url, depth, p.links, 0)
      case Failure(_) => 0
  }

  /** The bound for the rest of a link loop, from position `from` on. */
  ghost function Steps(world: World, maxDepth: int, base: string, depth: int, links: seq<Link>, from: nat): nat
    decreases maxDepth - depth, 0, |links| - from + 1
  {
    if depth > maxDepth || from >= |links| then 0
    else 1 + ChildWork(world, maxDepth, base, depth, links[from]) +
         Steps(world, maxDepth, base, depth, links, from + 1)
  }

  /** The bound for the child crawl that following `l` starts. */
  ghost function ChildWork(world: World, maxDepth: int, base: string, depth: int, l: Link): nat
    decreases maxDepth - depth, 0, 0
  {
    match world.resolve(base, l.url)
    case None => 0
    case Some(child) => if depth + 1 > maxDepth then 0 else Work(world, maxDepth, child, depth + 1)
  }

  /** What is left for the goroutine of `v` at position `pos`. */
  ghost function Remaining(world: World, maxDepth: int, v: Visit, pos: nat): nat
  {
    if v.page.Success? then Steps(world, maxDepth, v.url, v.depth, v.page.value.links, pos) else 0
  }

  /** What is left for the whole table. */
  ghost function Total(world: World, maxDepth: int, log: seq<Visit>, progress: seq<nat>): nat
    requires |progress| == |log|
  {
    if log == [] then 0
    else Total(world, maxDepth, log[..|log| - 1], progress[..|log| - 1]) +
         Remaining(world, maxDepth, log[|log| - 1], progress[|log| - 1])
  }

  lemma TotalAppend(world: World, maxDepth: int, log: seq<Visit>, progress: seq<nat>, v: Visit, pos: nat)
    requires |progress| == |log|
    ensures Total(world, maxDepth, log + [v], progress + [pos]) ==
            Total(world, maxDepth, log, progress) + Remaining(world, maxDepth, v, pos)
  {
    assert (log + [v])[..|log|] == log;
    assert (progress + [pos])[..|log|] == progress;
  }

  lemma {:induction false} TotalUpdate(world: World, maxDepth: int, log: seq<Visit>, progress: seq<nat>, i: nat, pos: nat)
    requires |progress| == |log| && i < |log|
    ensures Total(world, maxDepth, log, progress[i := pos]) ==
            Total(world, maxDepth, log, progress) - Remaining(world, maxDepth, log[i], progress[i]) +
            Remaining(world, maxDepth, log[i], pos)
  {
    var n := |log| - 1;
    if i < n {
      assert progress[i := pos][..n] == progress[..n][i := pos];
      TotalUpdate(world, maxDepth, log[..n], progress[..n], i, pos);
    } else {
      assert progress[i := pos][..n] == progress[..n];
    }
  }

  /** One scheduler step takes one unit off the goroutine's remaining work,
      plus whatever bound it had reserved for the child it follows. */
  lemma StepCost(world: World, maxDepth: int, v: Visit, pos: nat)
    requires Running(v, pos) && v.depth <= maxDepth
    ensures Remaining(world, maxDepth, v, pos) ==
            1 + ChildWork(world, maxDepth, v.url, v.depth, v.page.value.links[pos]) +
            Remaining(world, maxDepth, v, pos + 1)
  {
  }

  /** The goroutine at position `i` was started by an earlier one. */
  ghost predicate HasParent(world: World, log: seq<Visit>, i: int)
    requires 0 <= i < |log|
  {
    exists j :: 0 <= j < i && SpawnedBy(world, log[j], log[i])
  }

  /** Every goroutine after the first was started by an earlier one. */
  ghost predicate Provenance(world: World, log: seq<Visit>)
  {
    forall i :: 0 < i < |log| ==> HasParent(world, log, i)
  }

  /** Each goroutine above the depth bound has claimed every resolving href
      it has followed so far. */
  ghost predicate Expanded(world: World, maxDepth: int, log: seq<Visit>, progress: seq<nat>, urls: set<string>)
    requires |progress| == |log|
  {
    forall i :: 0 <= i < |log| && log[i].depth < maxDepth ==> ClaimedUpTo(world, log[i], progress[i], urls)
  }

  /** Each goroutine conforms to the world, sits within the depth bound and
      is within its link loop. */
  ghost predicate WellFormed(world: World, maxDepth: int, log: seq<Visit>, progress: seq<nat>)
  {
    |progress| == |log| &&
    forall i :: 0 <= i < |log| ==>
      0 <= log[i].depth <= maxDepth && Conforms(world, log[i]) && progress[i] <= LinkCount(log[i])
  }

  /** The first goroutine is the root's, unless the bound excludes even depth 0. */
  ghost predicate Rooted(root: string, maxDepth: int, log: seq<Visit>)
  {
    (maxDepth < 0 ==> log == []) &&
    (maxDepth >= 0 ==> |log| > 0 && log[0].url == root && log[0].depth == 0)
  }

  /** The invariant of the goroutine table. */
  ghost predicate TableInvariant(world: World, root: string, maxDepth: int,
                                 log: seq<Visit>, progress: seq<nat>, urls: set<string>)
  {
    WellFormed(world, maxDepth, log, progress) &&
    urls == UrlsOf(log) && Unique(log) && Rooted(root, maxDepth, log) &&
    Provenance(world, log) && Expanded(world, maxDepth, log, progress, urls)
  }

  lemma AppendUrls(log: seq<Visit>, x: Visit)
    ensures UrlsOf(log + [x]) == UrlsOf(log) + {x.url}
  {
    var log' := log + [x];
    forall u | u in UrlsOf(log) + {x.url} ensures u in UrlsOf(log') {
      if u == x.url {
        assert log'[|log|].url == u;
      } else {
        var j :| 0 <= j < |log| && log[j].url == u;
        assert log'[j].url == u;
      }
    }
  }

  lemma AppendUnique(log: seq<Visit>, x: Visit)
    requires Unique(log) && x.url !in UrlsOf(log)
    ensures Unique(log + [x])
  {
    var log' := log + [x];
    forall a, b | 0 <= a < b < |log'| ensures log'[a].url != log'[b].url {
      if b == |log| {
        assert log[a].url in UrlsOf(log);
      }
    }
  }

  lemma AppendProvenance(world: World, log: seq<Visit>, i: nat, x: Visit)
    requires Provenance(world, log) && i < |log| && SpawnedBy(world, log[i], x)
    ensures Provenance(world, log + [x])
  {
    var log' := log + [x];
    forall b | 0 < b < |log'| ensures HasParent(world, log', b) {
      if b < |log| {
        assert HasParent(world, log, b);
        var a :| 0 <= a < b && SpawnedBy(world, log[a], log[b]);
        assert log'[a] == log[a] && log'[b] == log[b];
        assert SpawnedBy(world, log'[a], log'[b]);
      } else {
        assert log'[i] == log[i] && log'[b] == x;
        assert SpawnedBy(world, log'[i], log'[b]);
      }
    }
  }

  /** Following the next href moves the goroutine on by one; the href's
      target, when it resolves and is not too deep, must be claimed by now. */
  lemma AdvanceExpanded(world: World, maxDepth: int, log: seq<Visit>, progress: seq<nat>,
                        urls: set<string>, urls': set<string>, i: nat)
    requires |progress| == |log| && i < |log| && Running(log[i], progress[i])
    requires Expanded(world, maxDepth, log, progress, urls) && urls <= urls'
    requires var r := NextChild(world, log, progress, i);
             r.Some? && log[i].depth < maxDepth ==> r.value in urls'
    ensures Expanded(world, maxDepth, log, progress[i := progress[i] + 1], urls')
  {
    var progress' := progress[i := progress[i] + 1];
    forall j | 0 <= j < |log| && log[j].depth < maxDepth
      ensures ClaimedUpTo(world, log[j], progress'[j], urls')
    {
      assert ClaimedUpTo(world, log[j], progress[j], urls);
    }
  }

  lemma AppendExpanded(world: World, maxDepth: int, log: seq<Visit>, progress: seq<nat>,
                       urls: set<string>, x: Visit)
    requires |progress| == |log| && Expanded(world, maxDepth, log, progress, urls)
    ensures Expanded(world, maxDepth, log + [x], progress + [0], urls + {x.url})
  {
    var log', progress' := log + [x], progress + [0];
    forall j | 0 <= j < |log'| && log'[j].depth < maxDepth
      ensures ClaimedUpTo(world, log'[j], progress'[j], urls + {x.url})
    {
      if j < |log| {
        assert ClaimedUpTo(world, log[j], progress[j], urls);
        assert log'[j] == log[j] && progress'[j] == progress[j];
      }
    }
  }

  /** The href the goroutine of `log[i]` follows next, resolved against its page. */
  ghost function NextChild(world: World, log: seq<Visit>, progress: seq<nat>, i: nat): Option<string>
    requires |progress| == |log| && i < |log| && Running(log[i], progress[i])
  {
    world.resolve(log[i].url, log[i].page.value.links[progress[i]].url)
  }

  /** A step whose child crawl returns at once (the href does not resolve, the
      child is too deep, or its URL is already claimed) keeps the invariant
      and uses up work. */
  lemma StepWithoutSpawn(world: World, root: string, maxDepth: int,
                         log: seq<Visit>, progress: seq<nat>, urls: set<string>, i: nat)
    requires TableInvariant(world, root, maxDepth, log, progress, urls)
    requires i < |log| && Running(log[i], progress[i])
    requires var r := NextChild(world, log, progress, i);
             r.None? || log[i].depth + 1 > maxDepth || r.value in urls
    ensures TableInvariant(world, root, maxDepth, log, progress[i := progress[i] + 1], urls)
    ensures Total(world, maxDepth, log, progress[i := progress[i] + 1]) < Total(world, maxDepth, log, progress)
  {
    StepCost(world, maxDepth, log[i], progress[i]);
    TotalUpdate(world, maxDepth, log, progress, i, progress[i] + 1);
    AdvanceExpanded(world, maxDepth, log, progress, urls, urls, i);
  }

  /** The goroutine a step spawns brings no more work than the parent had
      reserved for that child, so the step still uses up work. */
  lemma SpawnCost(world: World, maxDepth: int, log: seq<Visit>, progress: seq<nat>, i: nat, x: Visit)
    requires WellFormed(world, maxDepth, log, progress)
    requires i < |log| && Running(log[i], progress[i])
    requires NextChild(world, log, progress, i) == Some(x.url)
    requires x.depth == log[i].depth + 1 <= maxDepth && Conforms(world, x)
    ensures Total(world, maxDepth, log + [x], progress[i := progress[i] + 1] + [0]) <
            Total(world, maxDepth, log, progress)
  {
    var parent, pos := log[i], progress[i];
    var progress1 := progress[i := pos + 1];
    var reserved := ChildWork(world, maxDepth, parent.url, parent.depth, parent.page.value.links[pos]);
    assert reserved == Work(world, maxDepth, x.url, x.depth);
    calc {
      Total(world, maxDepth, log + [x], progress1 + [0]);
    == { TotalAppend(world, maxDepth, log, progress1, x, 0); }
      Total(world, maxDepth, log, progress1) + Remaining(world, maxDepth, x, 0);
    == { NewGoroutineWork(world, maxDepth, x); }
      Total(world, maxDepth, log, progress1) + reserved;
    == { TotalUpdate(world, maxDepth, log, progress, i, pos + 1); }
      Total(world, maxDepth, log, progress) - Remaining(world, maxDepth, parent, pos) +
      Remaining(world, maxDepth, parent, pos + 1) + reserved;
    == { StepCost(world, maxDepth, parent, pos); }
      Total(world, maxDepth, log, progress) - 1;
    }
  }

  /** A freshly spawned goroutine has exactly the work bound of its URL and depth. */
  lemma NewGoroutineWork(world: World, maxDepth: int, x: Visit)
    requires x.depth <= maxDepth && Conforms(world, x)
    ensures Remaining(world, maxDepth, x, 0) == Work(world, maxDepth, x.url, x.depth)
  {
  }

  /** A step whose child crawl claims a new URL appends its goroutine to the
      table, keeps the invariant and still uses up work. */
  lemma StepWithSpawn(world: World, root: string, maxDepth: int,
                      log: seq<Visit>, progress: seq<nat>, urls: set<string>, i: nat, x: Visit)
    requires TableInvariant(world, root, maxDepth, log, progress, urls)
    requires i < |log| && Running(log[i], progress[i])
    requires NextChild(world, log, progress, i) == Some(x.url) && x.url !in urls
    requires x.depth == log[i].depth + 1 <= maxDepth && Conforms(world, x)
    ensures TableInvariant(world, root, maxDepth, log + [x], progress[i := progress[i] + 1] + [0], urls + {x.url})
    ensures Total(world, maxDepth, log + [x], progress[i := progress[i] + 1] + [0]) <
            Total(world, maxDepth, log, progress)
  {
    var progress1 := progress[i := progress[i] + 1];
    SpawnCost(world, maxDepth, log, progress, i, x);
    AppendUrls(log, x);
    AppendUnique(log, x);
    assert SpawnedBy(world, log[i], x) by {
      var k := progress[i];
      assert world.resolve(log[i].url, log[i].page.value.links[k].url) == Some(x.url);
    }
    AppendProvenance(world, log, i, x);
    AdvanceExpanded(world, maxDepth, log, progress, urls, urls + {x.url}, i);
    AppendExpanded(world, maxDepth, log, progress1, urls + {x.url}, x);
    assert WellFormed(world, maxDepth, log + [x], progress1 + [0]) by {
      var log', progress' := log + [x], progress1 + [0];
      forall j | 0 <= j < |log'|
        ensures 0 <= log'[j].depth <= maxDepth && Conforms(world, log'[j]) && progress'[j] <= LinkCount(log'[j])
      {
        if j < |log| { assert log'[j] == log[j]; }
      }
    }
  }

  /** Some goroutine of the table has links left to follow. */
  predicate AnyRunning(log: seq<Visit>, progress: seq<nat>)
    requires |progress| == |log|
  {
    exists i :: 0 <= i < |log| && Running(log[i], progress[i])
  }

  /** After the root crawl the table holds the root's goroutine alone, or
      nothing when the bound excludes depth 0. */
  lemma InitialTable(world: World, root: string, maxDepth: int,
                     log: seq<Visit>, progress: seq<nat>, urls: set<string>)
    requires maxDepth < 0 ==> log == [] && progress == [] && urls == {}
    requires maxDepth >= 0 ==> urls == {root} && progress == [0] && |log| == 1 &&
                               log[0].url == root && log[0].depth == 0 && Conforms(world, log[0])
    ensures TableInvariant(world, root, maxDepth, log, progress, urls)
  {
    if maxDepth >= 0 {
      assert log == [] + [log[0]];
      AppendUrls([], log[0]);
    }
  }

  /** The properties of a finished crawl, read off the invariant once no
      goroutine has work left. */
  lemma FinishedTable(world: World, root: string, maxDepth: int,
                      log: seq<Visit>, progress: seq<nat>, urls: set<string>)
    requires TableInvariant(world, root, maxDepth, log, progress, urls)
    requires !AnyRunning(log, progress)
    ensures forall i :: 0 <= i < |log| && log[i].depth < maxDepth ==>
              ClaimedUpTo(world, log[i], LinkCount(log[i]), urls)
  {
    forall i | 0 <= i < |log| && log[i].depth < maxDepth
      ensures ClaimedUpTo(world, log[i], LinkCount(log[i]), urls)
    {
      assert !Running(log[i], progress[i]);
      assert ClaimedUpTo(world, log[i], progress[i], urls);
    }
  }

  /** One iteration of a goroutine's loop over its page's links: resolve the
      next href against the page's URL and, when that succeeds, crawl it one
      level deeper. Any goroutine that still has links may be the one to run. */
  method FollowNextLink(world: World, visited: VisitedSet, root: string, maxDepth: int,
                        log: seq<Visit>, progress: seq<nat>, i: nat)
    returns (log': seq<Visit>, progress': seq<nat>)
    requires TableInvariant(world, root, maxDepth, log, progress, visited.urls)
    requires i < |log| && Running(log[i], progress[i])
    modifies visited
    ensures TableInvariant(world, root, maxDepth, log', progress', visited.urls)
    ensures Total(world, maxDepth, log', progress') < Total(world, maxDepth, log, progress)
    ensures var r := NextChild(world, log, progress, i);
            r.None? || log[i].depth + 1 > maxDepth || r.value in old(visited.urls) ==>
              visited.urls == old(visited.urls) && log' == log &&
              progress' == progress[i := progress[i] + 1]
    ensures var r := NextChild(world, log, progress, i);
            r.Some? && log[i].depth + 1 <= maxDepth && r.value !in old(visited.urls) ==>
              visited.urls == old(visited.urls) + {r.value} &&
              progress' == progress[i := progress[i] + 1] + [0] &&
              |log'| == |log| + 1 && log'[..|log|] == log &&
              log'[|log|].url == r.value && log'[|log|].depth == log[i].depth + 1 &&
              Conforms(world, log'[|log|])
  {
    var parent := log[i];
    var link := parent.page.value.links[progress[i]];
    match world.resolve(parent.url, link.url)
    case None =>
      StepWithoutSpawn(world, root, maxDepth, log, progress, visited.urls, i);
      log', progress' := log, progress[i := progress[i] + 1];
    case Some(child) =>
      ghost var urls := visited.urls;
      log', progress' := Crawl(world, visited, child, maxDepth, parent.depth + 1, log, progress[i := progress[i] + 1]);
      if parent.depth + 1 > maxDepth || child in urls {
        StepWithoutSpawn(world, root, maxDepth, log, progress, urls, i);
      } else {
        assert log' == log + [log'[|log|]];
        StepWithSpawn(world, root, maxDepth, log, progress, urls, i, log'[|log|]);
      }
  }

  /** With every goroutine after the first started by a parent one level
      up, only the first goroutine can sit at depth 0: a crawl bounded at
      depth 0 fetches the root alone. */
  lemma OnlyRootAtDepthZero(world: World, root: string, log: seq<Visit>)
    requires Provenance(world, log)
    requires forall i :: 0 <= i < |log| ==> 0 <= log[i].depth
    ensures forall i :: 0 < i < |log| ==> log[i].depth >= 1
  {
    forall i | 0 < i < |log| ensures log[i].depth >= 1 {
      assert HasParent(world, log, i);
    }
  }

  /** The crawl as main runs it: create the visited set, crawl the root at
      depth 0, and wait until every goroutine, including those spawned by
      other goroutines, has finished. Returns the visited set and the table
      of claimed URLs in the order they were claimed. */
  method Run(world: World, root: string, maxDepth: int) returns (visited: set<string>, log: seq<Visit>)
    ensures visited == UrlsOf(log)
    ensures Unique(log)
    ensures forall i :: 0 <= i < |log| ==> 0 <= log[i].depth <= maxDepth && Conforms(world, log[i])
    ensures maxDepth < 0 ==> log == [] && visited == {}
    ensures maxDepth >= 0 ==> |log| > 0 && log[0].url == root && log[0].depth == 0
    ensures forall i :: 0 < i < |log| ==> HasParent(world, log, i)
    ensures forall i :: 0 <= i < |log| && log[i].depth < maxDepth ==>
              ClaimedUpTo(world, log[i], LinkCount(log[i]), visited)
    ensures maxDepth == 0 ==> |log| <= 1
  {
    var v := new VisitedSet();
    var progress: seq<nat>;
    log, progress := Crawl(world, v, root, maxDepth, 0, [], []);
    InitialTable(world, root, maxDepth, log, progress, v.urls);
    while AnyRunning(log, progress)
      invariant TableInvariant(world, root, maxDepth, log, progress, v.urls)
      decreases Total(world, maxDepth, log, progress)
    {
      var i :| 0 <= i < |log| && Running(log[i], progress[i]);
      log, progress := FollowNextLink(world, v, root, maxDepth, log, progress, i);
    }
    FinishedTable(world, root, maxDepth, log, progress, v.urls);
    OnlyRootAtDepthZero(world, root, log);
    visited := v.urls;
  }
}

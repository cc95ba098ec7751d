/** The link health check: one concurrent GET per link, and the links whose
    status is 4xx or 5xx collected from a channel in whatever order the checks
    finish. The concurrency is modelled by letting the collector take the
    result of any still-unfinished check next. */
module Health {
  import opened Web

  /** The classification: a status in [400, 600) is broken. */
  predicate IsBroken(status: int)
  {
    400 <= status < 600
  }

  /** The status fetchStatus records: the response's code, or the sentinel 0
      when the request got no response. */
  function StatusOf(r: HttpResult): int
  {
    match r
    case TransportError => 0
    case Response(code, _) => code
  }

  /** A check's private copy of `l` once its status has been fetched. */
  function Checked(get: string -> HttpResult, l: Link): Link
  {
    l.(status := StatusOf(get(l.url)))
  }

  /** fetchStatus on a check's own copy of `l`: the URL is kept and the status
      becomes the response's code, or 0 when the request got no response. */
  method FetchStatus(get: string -> HttpResult, l: Link) returns (c: Link)
    ensures c.url == l.url
    ensures get(l.url).TransportError? ==> c.status == 0
    ensures get(l.url).Response? ==> c.status == get(l.url).code
    ensures c == Checked(get, l)
  {
    match get(l.url)
    case TransportError =>
      c := l.(status := 0);
    case Response(code, _) =>
      c := l.(status := code);
  }

  /** What the check of `l` sends on the results channel: its checked copy when
      broken, nothing otherwise. */
  function Sent(get: string -> HttpResult, l: Link): seq<Link>
  {
    var c := Checked(get, l);
    if IsBroken(c.status) then [c] else []
  }

  /** Reference definition: the broken links in input order. */
  function BrokenLinks(get: string -> HttpResult, links: seq<Link>): seq<Link>
  {
    if links == [] then [] else Sent(get, links[0]) + BrokenLinks(get, links[1..])
  }

  /** The broken set holds at most one entry per input link, only links with
      a 4xx/5xx status, and exactly the checked copies whose status is such. */
  lemma {:induction false} BrokenLinksMembers(get: string -> HttpResult, links: seq<Link>)
    ensures |BrokenLinks(get, links)| <= |links|
    ensures forall l :: l in BrokenLinks(get, links) ==> IsBroken(l.status)
    ensures forall l :: l in BrokenLinks(get, links) <==>
              exists i :: 0 <= i < |links| && l == Checked(get, links[i]) && IsBroken(l.status)
  {
    if links != [] {
      var rest := links[1..];
      BrokenLinksMembers(get, rest);
      forall l | l in BrokenLinks(get, links)
        ensures exists i :: 0 <= i < |links| && l == Checked(get, links[i]) && IsBroken(l.status)
      {
        if l !in Sent(get, links[0]) {
          var i :| 0 <= i < |rest| && l == Checked(get, rest[i]) && IsBroken(l.status);
          assert rest[i] == links[i + 1];
        }
      }
      forall i | 0 <= i < |links| && IsBroken(Checked(get, links[i]).status)
        ensures Checked(get, links[i]) in BrokenLinks(get, links)
      {
        if i > 0 { assert links[i] == rest[i - 1]; }
      }
    }
  }

  /** Classification of single checks: 404 and 503 are broken; 200, 301 and a
      failed request (status 0) are not, and a check whose status is not broken
      never appears in the result. */
  lemma Classification(get: string -> HttpResult, links: seq<Link>)
    ensures IsBroken(404) && IsBroken(503)
    ensures !IsBroken(200) && !IsBroken(301) && !IsBroken(StatusOf(TransportError))
    ensures forall i :: 0 <= i < |links| ==>
              (Checked(get, links[i]) in BrokenLinks(get, links) <==> IsBroken(StatusOf(get(links[i].url))))
  {
    BrokenLinksMembers(get, links);
  }

  lemma {:induction false} BrokenLinksAppend(get: string -> HttpResult, a: seq<Link>, b: seq<Link>)
    ensures BrokenLinks(get, a + b) == BrokenLinks(get, a) + BrokenLinks(get, b)
  {
    if a == [] {
      assert a + b == b;
    } else {
      assert (a + b)[1..] == a[1..] + b;
      BrokenLinksAppend(get, a[1..], b);
    }
  }

  /** Taking out the check at position `p`: what the others deliver, plus
      what that one sends, is what all of them deliver, as a multiset. */
  lemma RemoveCheck(get: string -> HttpResult, pending: seq<Link>, p: nat)
    requires p < |pending|
    ensures multiset(BrokenLinks(get, pending)) ==
            multiset(Sent(get, pending[p])) + multiset(BrokenLinks(get, pending[..p] + pending[p + 1..]))
  {
    var before, after := pending[..p], pending[p + 1..];
    assert pending == before + [pending[p]] + after;
    var b, a := BrokenLinks(get, before), BrokenLinks(get, after);
    assert BrokenLinks(get, [pending[p]]) == Sent(get, pending[p]);
    BrokenLinksAppend(get, before + [pending[p]], after);
    BrokenLinksAppend(get, before, [pending[p]]);
    BrokenLinksAppend(get, before, after);
  }

  /** Fan-out one check per link, each on its own copy of the link, then
      fan-in until every check has finished. The result is the broken links
      as a multiset, whatever order the checks complete in; the caller's links
      are values and are not changed. */
  method CheckLinks(get: string -> HttpResult, links: seq<Link>) returns (broken: seq<Link>)
    ensures multiset(broken) == multiset(BrokenLinks(get, links))
    ensures |broken| <= |links|
    ensures forall l :: l in broken ==> IsBroken(l.status)
  {
    broken := [];
    var pending := links;
    while pending != []
      invariant multiset(broken) + multiset(BrokenLinks(get, pending)) == multiset(BrokenLinks(get, links))
      decreases |pending|
    {
      // any check still running may be the next to finish
      var p :| 0 <= p < |pending|;
      var link := FetchStatus(get, pending[p]);
      if IsBroken(link.status) {
        broken := broken + [link];
      }
      RemoveCheck(get, pending, p);
      pending := pending[..p] + pending[p + 1..];
    }
    BrokenLinksMembers(get, links);
    assert |broken| == |multiset(broken)|;
    forall l | l in broken ensures IsBroken(l.status) {
      assert l in multiset(BrokenLinks(get, links));
    }
  }
}

/** Link extraction: a pre-order walk of the parsed document that takes, from
    every `<a>` element, the value of its first `href` attribute. */
module Extract {
  import opened Wrappers
  import opened Web

  /** The value of the first attribute whose key is "href", if there is one. */
  function FirstHref(attrs: seq<Attribute>): Option<string>
  {
    if attrs == [] then None
    else if attrs[0].key == "href" then Some(attrs[0].val)
    else FirstHref(attrs[1..])
  }

  /** Position `i` holds the first "href" attribute of `attrs`. */
  ghost predicate IsFirstHref(attrs: seq<Attribute>, i: int)
  {
    0 <= i < |attrs| && attrs[i].key == "href" &&
    forall j :: 0 <= j < i ==> attrs[j].key != "href"
  }

  /** FirstHref finds nothing exactly when no attribute is called "href", and
      otherwise the value at the first such position. */
  lemma {:induction false} FirstHrefIsFirst(attrs: seq<Attribute>)
    ensures FirstHref(attrs).None? <==> forall i :: 0 <= i < |attrs| ==> attrs[i].key != "href"
    ensures forall i :: IsFirstHref(attrs, i) ==> FirstHref(attrs) == Some(attrs[i].val)
    ensures FirstHref(attrs).Some? ==>
              exists i :: IsFirstHref(attrs, i) && FirstHref(attrs).value == attrs[i].val
  {
    if attrs == [] {
    } else if attrs[0].key == "href" {
      assert IsFirstHref(attrs, 0);
    } else {
      var rest := attrs[1..];
      FirstHrefIsFirst(rest);
      forall i | IsFirstHref(attrs, i) ensures IsFirstHref(rest, i - 1) {
        assert i != 0;
        forall j | 0 <= j < i - 1 ensures rest[j].key != "href" {
          assert rest[j] == attrs[j + 1];
        }
      }
      if FirstHref(rest).Some? {
        var i :| IsFirstHref(rest, i) && FirstHref(rest).value == rest[i].val;
        forall j | 0 <= j < i + 1 ensures attrs[j].key != "href" || j == i + 1 {
          if j > 0 { assert attrs[j] == rest[j - 1]; }
        }
        assert IsFirstHref(attrs, i + 1);
      }
      if forall i :: 0 <= i < |rest| ==> rest[i].key != "href" {
        forall i | 0 <= i < |attrs| ensures attrs[i].key != "href" {
          if i > 0 { assert attrs[i] == rest[i - 1]; }
        }
      }
    }
  }

  /** The attribute loop of the extractor: stop at the first "href". */
  method FindHref(attrs: seq<Attribute>) returns (href: Option<string>)
    ensures href == FirstHref(attrs)
  {
    href := None;
    for i := 0 to |attrs|
      invariant href == None
      invariant FirstHref(attrs[i..]) == FirstHref(attrs)
    {
      assert attrs[i..][1..] == attrs[i + 1..];
      if attrs[i].key == "href" {
        href := Some(attrs[i].val);
        return;
      }
    }
  }

  /** What one node contributes by itself: an `<a>` element gives one link,
      from its first href and with its status unset; every other node, and an
      `<a>` without href, gives nothing. */
  function OwnLinks(n: Node): seq<Link>
  {
    if n.kind == ElementNode && n.data == "a" then
      match FirstHref(n.attrs)
      case Some(v) => [Link(v, 0)]
      case None => []
    else []
  }

  /** A node contributes at most one link, and does exactly when it is an `<a>`
      element with an "href" attribute; the link carries the value of the
      first such attribute and status 0. */
  lemma OwnLinksOfAnchor(n: Node)
    ensures |OwnLinks(n)| <= 1
    ensures OwnLinks(n) != [] <==>
              n.kind == ElementNode && n.data == "a" &&
              exists i :: 0 <= i < |n.attrs| && n.attrs[i].key == "href"
    ensures OwnLinks(n) != [] ==>
              exists i :: IsFirstHref(n.attrs, i) && OwnLinks(n)[0] == Link(n.attrs[i].val, 0)
  {
    FirstHrefIsFirst(n.attrs);
  }

  /** The links of the subtree rooted at `n`: its own, then those of its
      children from first to last. */
  function DocumentLinks(n: Node): seq<Link>
    decreases n, 1
  {
    OwnLinks(n) + ChildLinks(n, |n.children|)
  }

  /** The links of the subtrees of the first `k` children of `n`. */
  function ChildLinks(n: Node, k: nat): seq<Link>
    requires k <= |n.children|
    decreases n, 0, k
  {
    if k == 0 then [] else ChildLinks(n, k - 1) + DocumentLinks(n.children[k - 1])
  }

  /** The nodes of the subtree rooted at `n` in document (pre-)order. */
  function PreOrder(n: Node): seq<Node>
    decreases n, 1
  {
    [n] + ChildPreOrder(n, |n.children|)
  }

  /** The pre-order listings of the first `k` children of `n`, one after another. */
  function ChildPreOrder(n: Node, k: nat): seq<Node>
    requires k <= |n.children|
    decreases n, 0, k
  {
    if k == 0 then [] else ChildPreOrder(n, k - 1) + PreOrder(n.children[k - 1])
  }

  /** The links a list of nodes contributes, node by node. */
  function NodeLinks(nodes: seq<Node>): seq<Link>
  {
    if nodes == [] then [] else OwnLinks(nodes[0]) + NodeLinks(nodes[1..])
  }

  lemma {:induction false} NodeLinksAppend(a: seq<Node>, b: seq<Node>)
    ensures NodeLinks(a + b) == NodeLinks(a) + NodeLinks(b)
  {
    if a == [] {
      assert a + b == b;
    } else {
      assert (a + b)[1..] == a[1..] + b;
      NodeLinksAppend(a[1..], b);
    }
  }

  /** Pre-order: the links of a tree are those of its nodes taken in document
      order, so a node's own link precedes its descendants' and an earlier
      sibling's subtree precedes a later one's. */
  lemma {:induction false} DocumentLinksInPreOrder(n: Node)
    ensures DocumentLinks(n) == NodeLinks(PreOrder(n))
    decreases n, 1
  {
    ChildLinksInPreOrder(n, |n.children|);
    NodeLinksAppend([n], ChildPreOrder(n, |n.children|));
  }

  lemma {:induction false} ChildLinksInPreOrder(n: Node, k: nat)
    requires k <= |n.children|
    ensures ChildLinks(n, k) == NodeLinks(ChildPreOrder(n, k))
    decreases n, 0, k
  {
    if k > 0 {
      ChildLinksInPreOrder(n, k - 1);
      DocumentLinksInPreOrder(n.children[k - 1]);
      NodeLinksAppend(ChildPreOrder(n, k - 1), PreOrder(n.children[k - 1]));
    }
  }

  /** At most one link per node; every link has status 0 and comes from a
      node of the list, and every node's own link is among them. */
  lemma {:induction false} NodeLinksMembers(nodes: seq<Node>)
    ensures |NodeLinks(nodes)| <= |nodes|
    ensures forall l :: l in NodeLinks(nodes) ==> l.status == 0
    ensures forall l :: l in NodeLinks(nodes) <==> exists m :: m in nodes && l in OwnLinks(m)
  {
    if nodes != [] {
      NodeLinksMembers(nodes[1..]);
      OwnLinksOfAnchor(nodes[0]);
      forall l | (exists m :: m in nodes && l in OwnLinks(m)) ensures l in NodeLinks(nodes) {
        var m :| m in nodes && l in OwnLinks(m);
        if m != nodes[0] { assert m in nodes[1..]; }
      }
    }
  }

  /** The extractor's result, stated over the whole tree: at most one link per
      node, every status unset, and a link is present exactly when some node of
      the tree contributes it. */
  lemma DocumentLinksMembers(n: Node)
    ensures |DocumentLinks(n)| <= |PreOrder(n)|
    ensures forall l :: l in DocumentLinks(n) ==> l.status == 0
    ensures forall l :: l in DocumentLinks(n) <==> exists m :: m in PreOrder(n) && l in OwnLinks(m)
  {
    DocumentLinksInPreOrder(n);
    NodeLinksMembers(PreOrder(n));
  }

  /** The recursive closure of the extractor: appends the links of the subtree
      rooted at `n` to those collected so far. */
  method Walk(n: Node, links: seq<Link>) returns (out: seq<Link>)
    ensures out == links + DocumentLinks(n)
    decreases n
  {
    out := links;
    if n.kind == ElementNode && n.data == "a" {
      var href := FindHref(n.attrs);
      if href.Some? {
        out := out + [Link(href.value, 0)];
      }
    }
    for i := 0 to |n.children|
      invariant out == links + OwnLinks(n) + ChildLinks(n, i)
    {
      out := Walk(n.children[i], out);
    }
  }

  /** All links of a document, in document order. */
  method ExtractLinks(doc: Node) returns (links: seq<Link>)
    ensures links == DocumentLinks(doc)
  {
    links := Walk(doc, []);
  }
}

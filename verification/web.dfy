/** The values the crawler passes around: links, fetched pages, the document
    tree returned by the HTML parser, and the outcome of one HTTP GET. */
module Web {
  import opened Wrappers

  /** A hyperlink and the HTTP status observed for it; 0 means "not fetched"
      or "the request failed". */
  datatype Link = Link(url: string, status: int)

  /** A fetched page and the links extracted from it, in document order. */
  datatype WebPage = WebPage(url: string, links: seq<Link>)

  /** The kinds of node the HTML parser produces. */
  datatype NodeType = ErrorNode | TextNode | DocumentNode | ElementNode | CommentNode | DoctypeNode | RawNode

  /** An attribute of an element node (`Key` is the attribute name). */
  datatype Attribute = Attribute(namespace: string, key: string, val: string)

  /** A node of the parsed document. The parser links a node's children through
      first-child and next-sibling pointers; here they are the sequence
      `children`, first child first. For an element node, `data` is the tag name. */
  datatype Node = Node(kind: NodeType, data: string, attrs: seq<Attribute>, children: seq<Node>)

  /** The outcome of one HTTP GET: no response at all, or a status code and
      what the HTML parser makes of the body (None when it rejects it). */
  datatype HttpResult = TransportError | Response(code: int, body: Option<Node>)
}

/**
 * The parsed HTML document tree that the listing collector walks.
 *
 * This mirrors the node type of the Go package golang.org/x/net/html: each node
 * has a kind, a `data` string (the tag name of an element, the text of a text
 * node), an ordered attribute list, and its children in sibling order. The Go
 * tree links children through FirstChild / NextSibling pointers; here the
 * children are a sequence in the same order.
 */
module Html {

  /** The node kinds of golang.org/x/net/html. */
  datatype NodeType =
    | ErrorNode
    | TextNode
    | DocumentNode
    | ElementNode
    | CommentNode
    | DoctypeNode
    | RawNode

  /** One attribute of an element, in the order the document gives it. */
  datatype Attribute = Attribute(namespace: string, key: string, val: string)

  datatype Node = Node(kind: NodeType, data: string, attr: seq<Attribute>, children: seq<Node>)

  /** The nodes whose attributes the collector reads: `<a>` elements. */
  predicate IsAnchor(n: Node)
  {
    n.kind == ElementNode && n.data == "a"
  }
}

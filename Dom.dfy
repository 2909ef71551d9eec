/** The part of the browser DOM that the Word-HTML flatteners look at. */
module Dom {
  import opened JsStrings

  /** A parsed node: a text node, an element with its upper-case tag name and
      its child nodes, or any other kind of node (comment, processing
      instruction, ...). */
  datatype Node =
    | TextNode(data: Text)
    | Element(tag: string, children: seq<Node>)
    | OtherNode

  /** `node.textContent`: the text of every descendant text node, in document
      order.  Other nodes contribute nothing. */
  function TextContent(n: Node): Text
  {
    match n
    case TextNode(d) => d
    case Element(_, ch) => Concat(seq(|ch|, i requires 0 <= i < |ch| => TextContent(ch[i])))
    case OtherNode => []
  }

  /** The tags after which the flatteners start a new line. */
  predicate IsBlockTag(tag: string)
  {
    tag == "P" || tag == "DIV" || tag == "LI" || tag == "BR"
  }

  /** No element of the tree, at any depth, has a tag in tags. */
  predicate NoTagIn(tags: set<string>, n: Node)
    decreases n
  {
    match n
    case Element(tag, ch) => tag !in tags && forall i :: 0 <= i < |ch| ==> NoTagIn(tags, ch[i])
    case _ => true
  }
}

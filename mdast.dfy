/**
  The fragment of the Markdown syntax tree the plugin reads and writes, the
  node builders both copies define, and the parent whose child list the
  transformer splices in place.
 */
module Mdast {
  import opened Wrappers

  datatype Node =
    | Text(value: string)
    | Link(url: string, title: Option<string>, children: seq<Node>)
    | Paragraph(children: seq<Node>)
    | Definition(identifier: string, labelText: string, url: string)
      /** Any other node of the tree; the plugin never looks inside it. */
    | Other(nodeType: string)

  /** `makeTextNode` */
  function MakeText(text: string): (n: Node)
    ensures n.Text? && n.value == text
  {
    Text(text)
  }

  /** `makeLinkNode`: an empty title becomes `null`; the only child is a text node with the link text. */
  function MakeLink(url: string, text: string, title: string): (n: Node)
    ensures n.Link? && n.url == url && n.children == [Text(text)]
    ensures n.title.None? <==> title == ""
    ensures n.title.Some? ==> n.title.value == title
  {
    Link(url, if title == "" then None else Some(title), [Text(text)])
  }

  /**
    `makeReferenceLinkNode`: a paragraph whose first child shows `[text]` and
    whose second child defines the reference as its own url.
   */
  function MakeReference(reference: string, text: string): (n: Node)
    ensures n.Paragraph? && |n.children| == 2
    ensures n.children[0] == Text("[" + text + "]")
    ensures n.children[1].Definition? && n.children[1].labelText == text
    ensures n.children[1].identifier == n.children[1].url == reference
  {
    Paragraph([Text("[" + text + "]"), Definition(reference, text, reference)])
  }

  /** `makeStrikethroughNode`: a text node holding `~~text~~`. */
  function MakeStrikethrough(text: string): (n: Node)
    ensures n.Text? && n.value == "~~" + text + "~~"
  {
    Text("~~" + text + "~~")
  }

  /** The list `s` with its element at `index` replaced by the elements of `nodes`. */
  function Spliced(s: seq<Node>, index: nat, nodes: seq<Node>): (r: seq<Node>)
    requires index < |s|
    ensures |r| == |s| - 1 + |nodes|
    ensures r[..index] == s[..index]
    ensures r[index..index + |nodes|] == nodes
    ensures r[index + |nodes|..] == s[index + 1..]
  {
    s[..index] + nodes + s[index + 1..]
  }

  /** A parent node of the tree: the only state the transformer changes. */
  class Parent {
    var children: seq<Node>

    constructor (children: seq<Node>)
      ensures this.children == children
    {
      this.children := children;
    }

    /** `children.splice(index, 1, ...nodes)` */
    method Splice(index: nat, nodes: seq<Node>)
      requires index < |children|
      modifies this
      ensures children == Spliced(old(children), index, nodes)
    {
      children := children[..index] + nodes + children[index + 1..];
    }
  }
}

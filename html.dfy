/** The parsed markup tree the analyzer walks: the node kinds, attributes and
    children of the HTML parser's nodes, and the depth-first pre-order in
    which every walk of the analyzer visits them. */
module Html {

  /** The node kinds the analyzer distinguishes; every other kind the parser
      produces (document, comment, error, raw) is `OtherNode`. */
  datatype NodeType = ElementNode | TextNode | DoctypeNode | OtherNode

  /** An attribute as the parser gives it: a key and a value. */
  datatype Attribute = Attribute(key: string, val: string)

  /** A node: its kind, its data (tag name of an element, the text of a text
      node, the literal of a doctype), its ordered attributes and its ordered
      children (first child to last sibling). */
  datatype Node = Node(kind: NodeType, data: string, attr: seq<Attribute>, children: seq<Node>)

  /** The nodes of the tree below `n`, `n` first, each subtree in order. */
  function Preorder(n: Node): (ns: seq<Node>)
    ensures |ns| >= 1 && ns[0] == n
    decreases n, 1
  {
    [n] + PreorderForest(n.children)
  }

  /** The pre-orders of `cs`, one after the other. */
  function PreorderForest(cs: seq<Node>): seq<Node>
    decreases cs, 0
  {
    if cs == [] then [] else PreorderForest(cs[..|cs| - 1]) + Preorder(cs[|cs| - 1])
  }

  /** A node's pre-order holds the pre-order of each child, so every node of
      the tree is in it. */
  lemma {:induction false} ChildInPreorder(n: Node, k: nat)
    requires k < |n.children|
    ensures multiset(Preorder(n.children[k])) <= multiset(Preorder(n))
  {
    ChildInForest(n.children, k);
  }

  lemma {:induction false} ChildInForest(cs: seq<Node>, k: nat)
    requires k < |cs|
    ensures multiset(Preorder(cs[k])) <= multiset(PreorderForest(cs))
    decreases |cs|
  {
    if k < |cs| - 1 {
      ChildInForest(cs[..|cs| - 1], k);
    }
  }

  /** Walking the children one after the other is walking their forest. */
  lemma ForestStep(cs: seq<Node>, i: nat)
    requires i < |cs|
    ensures PreorderForest(cs[..i + 1]) == PreorderForest(cs[..i]) + Preorder(cs[i])
  {
    assert cs[..i + 1][..i] == cs[..i];
  }
}

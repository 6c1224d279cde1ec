/** The part of the browser's document that the selector engine walks: a rose tree whose
    nodes are identified by their path of child indices from the root. */
module Dom {
  import opened Wrappers

  // A node is an element (nodeType 1) or not (document, text, comment).
  datatype Tree = Tree(element: bool, name: string, children: seq<Tree>)

  type Node = seq<nat>

  predicate InTree(t: Tree, n: Node)
    decreases |n|
  {
    n == [] || (n[0] < |t.children| && InTree(t.children[n[0]], n[1..]))
  }

  function Subtree(t: Tree, n: Node): Tree
    requires InTree(t, n)
    decreases |n|
  {
    if n == [] then t else Subtree(t.children[n[0]], n[1..])
  }

  predicate IsElement(t: Tree, n: Node) {
    InTree(t, n) && Subtree(t, n).element
  }

  function NodeName(t: Tree, n: Node): string {
    if InTree(t, n) then Subtree(t, n).name else ""
  }

  function ParentNode(n: Node): Option<Node> {
    if n == [] then None else Some(n[..|n| - 1])
  }

  function PreviousSibling(n: Node): Option<Node> {
    if n == [] || n[|n| - 1] == 0 then None else Some(n[|n| - 1 := n[|n| - 1] - 1])
  }

  function NextSibling(t: Tree, n: Node): Option<Node> {
    if n == [] then None
    else
      var m := n[|n| - 1 := n[|n| - 1] + 1];
      if InTree(t, m) then Some(m) else None
  }
}

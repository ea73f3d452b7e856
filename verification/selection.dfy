/** Kakoune selections, and how they relate to the nodes of a syntax tree. */
module Selections {
  import opened Positions

  /** No rule says which of the two comes first. */
  datatype Sel = Sel(anchor: Pos, cursor: Pos)

  /** A node, or a capture: the bytes from `start` up to and excluding `end`. */
  datatype Node = Node(start: nat, end: nat)

  ghost predicate Within(text: Text, node: Node) {
    node.start <= node.end <= |text|
  }

  function Backward(sel: Sel): bool {
    Less(sel.cursor, sel.anchor)
  }

  function Replace(sel: Sel, a: Pos, b: Pos): Sel {
    if AtMost(sel.anchor, sel.cursor) then Sel(a, b) else Sel(b, a)
  }

  function NodeStart(text: Text, node: Node): Pos
    requires Within(text, node)
  {
    FromTreeSitter(text, node.start)
  }

  /** Selections are inclusive, so the column is one less; this is column 0 when a line starts there. */
  function NodeEnd(text: Text, node: Node): Pos
    requires Within(text, node)
  {
    var p := FromTreeSitter(text, node.end);
    PositionsDecode(text, node.end);
    Pos(p.line, p.col - 1)
  }

  function ReplaceWithNode(sel: Sel, text: Text, node: Node): Sel
    requires Within(text, node)
  {
    Replace(sel, NodeStart(text, node), NodeEnd(text, node))
  }

  predicate SelectsNode(sel: Sel, text: Text, node: Node)
    requires Within(text, node)
  {
    var start, end := NodeStart(text, node), NodeEnd(text, node);
    if AtMost(sel.anchor, sel.cursor) then AtMost(sel.anchor, start) && AtMost(end, sel.cursor)
    else AtMost(sel.cursor, start) && AtMost(end, sel.anchor)
  }

  predicate FullySelects(sel: Sel, text: Text, node: Node)
    requires Within(text, node)
  {
    var start, end := NodeStart(text, node), NodeEnd(text, node);
    if AtMost(sel.anchor, sel.cursor) then sel.anchor == start && sel.cursor == end
    else sel.cursor == start && sel.anchor == end
  }

  /** Where the corrected end of a node lies: after everything in the node, before everything behind it. */
  lemma NodeEndBounds(text: Text, node: Node, byte: nat)
    requires Within(text, node) && byte <= |text|
    ensures Less(NodeEnd(text, node), FromTreeSitter(text, byte)) <==> node.end <= byte
    ensures byte < node.end ==> AtMost(FromTreeSitter(text, byte), NodeEnd(text, node))
  {
    PositionsAreOrdered(text, node.end, byte);
    if byte < node.end {
      PositionBefore(text, node.end);
      PositionsAreOrdered(text, byte, node.end - 1);
    }
  }

  /** Two captures never have the same corrected end unless they end at the same byte. */
  lemma NodeEndInjective(text: Text, a: Node, b: Node)
    requires Within(text, a) && Within(text, b)
    ensures NodeEnd(text, a) == NodeEnd(text, b) <==> a.end == b.end
  {
    PositionsDecode(text, a.end);
    PositionsDecode(text, b.end);
  }

  /**
    Selecting a node is recognised afterwards exactly when the node is not empty, whatever the selection
    was before and wherever the node ends. The direction is kept, unless anchor and cursor coincide.
   */
  lemma SelectedNodeIsRecognised(sel: Sel, text: Text, node: Node)
    requires Within(text, node)
    ensures var r := ReplaceWithNode(sel, text, node);
            && (FullySelects(r, text, node) <==> node.start < node.end)
            && (node.start < node.end ==>
                  && SelectsNode(r, text, node)
                  && (Backward(r) <==> Backward(sel) && r.anchor != r.cursor))
  {
    NodeEndBounds(text, node, node.start);
  }

  /** Only one node of the text is fully selected by a selection. */
  lemma FullySelectsOneNode(sel: Sel, text: Text, a: Node, b: Node)
    requires Within(text, a) && Within(text, b)
    requires FullySelects(sel, text, a) && FullySelects(sel, text, b)
    ensures a == b
  {
    PositionsAreOrdered(text, a.start, b.start);
    NodeEndInjective(text, a, b);
  }

  /** A selection made from one node selects another one exactly when it encloses it. */
  lemma SelectsMeansEncloses(sel: Sel, text: Text, outer: Node, inner: Node)
    requires Within(text, outer) && Within(text, inner) && outer.start < outer.end && inner.start < inner.end
    ensures SelectsNode(ReplaceWithNode(sel, text, outer), text, inner)
            <==> outer.start <= inner.start && inner.end <= outer.end
  {
    NodeEndBounds(text, outer, outer.start);
    NodeEndBounds(text, inner, inner.start);
    PositionsAreOrdered(text, outer.start, inner.start);
    PositionsAreOrdered(text, outer.end, inner.end);
    NodeEndBounds(text, outer, inner.start);
    PositionsDecode(text, outer.end);
    PositionsDecode(text, inner.end);
  }
}

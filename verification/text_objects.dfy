/** Text objects: moving selections between the captures of a query. */
module TextObjects {
  import opened Options
  import opened Positions
  import opened Selections

  // ---------------------------------------------------------------- picking a capture

  /** Which captures are looked at, relative to a position. */
  datatype Search = After | Before | Enclosing

  predicate Matches(search: Search, text: Text, p: Pos, node: Node)
    requires node.start <= node.end <= |text|
  {
    match search
    case After => Less(p, FromTreeSitter(text, node.start))
    case Before => Less(FromTreeSitter(text, node.start), p)
    case Enclosing => Less(FromTreeSitter(text, node.start), p) && Less(p, FromTreeSitter(text, node.end))
  }

  /** Seen from a byte: behind it, before it, and strictly around it. */
  lemma MatchesAtByte(text: Text, byte: nat, node: Node)
    requires byte <= |text| && Within(text, node)
    ensures Matches(After, text, FromTreeSitter(text, byte), node) <==> byte < node.start
    ensures Matches(Before, text, FromTreeSitter(text, byte), node) <==> node.start < byte
    ensures Matches(Enclosing, text, FromTreeSitter(text, byte), node) <==> node.start < byte < node.end
  {
    PositionsAreOrdered(text, byte, node.start);
    PositionsAreOrdered(text, node.start, byte);
    PositionsAreOrdered(text, byte, node.end);
  }

  ghost predicate AllWithin(text: Text, nodes: seq<Node>) {
    forall i :: 0 <= i < |nodes| ==> Within(text, nodes[i])
  }

  function Candidates(search: Search, text: Text, p: Pos, nodes: seq<Node>): (found: seq<Node>)
    requires AllWithin(text, nodes)
    ensures forall c :: c in found <==> c in nodes && Within(text, c) && Matches(search, text, p, c)
    ensures |found| <= |nodes|
  {
    if nodes == [] then []
    else
      var n := |nodes| - 1;
      assert nodes == nodes[..n] + [nodes[n]];
      Candidates(search, text, p, nodes[..n]) + if Matches(search, text, p, nodes[n]) then [nodes[n]] else []
  }

  /** Behind everything that does not start later. */
  function Insert(sorted: seq<Node>, x: Node): seq<Node> {
    if sorted == [] || sorted[|sorted| - 1].start <= x.start then sorted + [x]
    else Insert(sorted[..|sorted| - 1], x) + [sorted[|sorted| - 1]]
  }

  /** The stable sort by start byte. */
  function SortByStart(nodes: seq<Node>): seq<Node> {
    if nodes == [] then [] else Insert(SortByStart(nodes[..|nodes| - 1]), nodes[|nodes| - 1])
  }

  function NodeAfter(text: Text, p: Pos, nodes: seq<Node>): Option<Node>
    requires AllWithin(text, nodes)
  {
    var sorted := SortByStart(Candidates(After, text, p, nodes));
    if sorted == [] then None else Some(sorted[0])
  }

  function NodeBefore(text: Text, p: Pos, nodes: seq<Node>): Option<Node>
    requires AllWithin(text, nodes)
  {
    var sorted := SortByStart(Candidates(Before, text, p, nodes));
    if sorted == [] then None else Some(sorted[|sorted| - 1])
  }

  function NarrowestEnclosingNode(text: Text, p: Pos, nodes: seq<Node>): Option<Node>
    requires AllWithin(text, nodes)
  {
    var sorted := SortByStart(Candidates(Enclosing, text, p, nodes));
    if sorted == [] then None else Some(sorted[|sorted| - 1])
  }

  // What the sort is used for: its first and its last element.

  lemma {:induction false} InsertLast(sorted: seq<Node>, x: Node)
    ensures var r := Insert(sorted, x);
            && |r| == |sorted| + 1
            && r[|r| - 1] == if sorted == [] || sorted[|sorted| - 1].start <= x.start then x else sorted[|sorted| - 1]
  {
    if sorted != [] && x.start < sorted[|sorted| - 1].start {
      InsertLast(sorted[..|sorted| - 1], x);
    }
  }

  ghost predicate Ordered(nodes: seq<Node>) {
    forall i, j :: 0 <= i < j < |nodes| ==> nodes[i].start <= nodes[j].start
  }

  lemma {:induction false} InsertFirst(sorted: seq<Node>, x: Node)
    requires Ordered(sorted)
    ensures var r := Insert(sorted, x);
            && Ordered(r) && |r| > 0
            && r[0] == if sorted == [] || x.start < sorted[0].start then x else sorted[0]
  {
    InsertLast(sorted, x);
    if sorted != [] && x.start < sorted[|sorted| - 1].start {
      var n := |sorted| - 1;
      InsertLast(sorted[..n], x);
      InsertFirst(sorted[..n], x);
    }
  }

  /** The earliest of the elements with the smallest start. */
  ghost predicate IsFirst(nodes: seq<Node>, i: nat) {
    && i < |nodes|
    && (forall j :: 0 <= j < i ==> nodes[i].start < nodes[j].start)
    && (forall j :: i <= j < |nodes| ==> nodes[i].start <= nodes[j].start)
  }

  /** The latest of the elements with the largest start. */
  ghost predicate IsLast(nodes: seq<Node>, i: nat) {
    && i < |nodes|
    && (forall j :: 0 <= j <= i ==> nodes[j].start <= nodes[i].start)
    && (forall j :: i < j < |nodes| ==> nodes[j].start < nodes[i].start)
  }

  lemma FirstExtends(nodes: seq<Node>, i: nat)
    requires nodes != [] && (|nodes| > 1 ==> IsFirst(nodes[..|nodes| - 1], i))
    ensures var n := |nodes| - 1;
            IsFirst(nodes, if n == 0 || nodes[n].start < nodes[i].start then n else i)
  {
    var n := |nodes| - 1;
    assert forall j :: 0 <= j < n ==> nodes[..n][j] == nodes[j];
  }

  lemma LastExtends(nodes: seq<Node>, i: nat)
    requires nodes != [] && (|nodes| > 1 ==> IsLast(nodes[..|nodes| - 1], i))
    ensures var n := |nodes| - 1;
            IsLast(nodes, if n == 0 || nodes[i].start <= nodes[n].start then n else i)
  {
    var n := |nodes| - 1;
    assert forall j :: 0 <= j < n ==> nodes[..n][j] == nodes[j];
  }

  /** The sort is stable: of several captures with the same start, the order of the list decides. */
  lemma {:induction false} SortFirst(nodes: seq<Node>) returns (i: nat)
    ensures |SortByStart(nodes)| == |nodes| && Ordered(SortByStart(nodes))
    ensures nodes != [] ==> IsFirst(nodes, i) && SortByStart(nodes)[0] == nodes[i]
  {
    i := 0;
    if nodes != [] {
      var n := |nodes| - 1;
      var before := SortByStart(nodes[..n]);
      i := SortFirst(nodes[..n]);
      InsertLast(before, nodes[n]);
      InsertFirst(before, nodes[n]);
      FirstExtends(nodes, i);
      if n == 0 || nodes[n].start < nodes[i].start {
        i := n;
      }
    }
  }

  lemma {:induction false} SortLast(nodes: seq<Node>) returns (i: nat)
    ensures |SortByStart(nodes)| == |nodes|
    ensures nodes != [] ==> IsLast(nodes, i) && SortByStart(nodes)[|nodes| - 1] == nodes[i]
  {
    i := 0;
    if nodes != [] {
      var n := |nodes| - 1;
      var before := SortByStart(nodes[..n]);
      i := SortLast(nodes[..n]);
      InsertLast(before, nodes[n]);
      LastExtends(nodes, i);
      if n == 0 || nodes[i].start <= nodes[n].start {
        i := n;
      }
    }
  }

  lemma NodeAfterIsNearest(text: Text, p: Pos, nodes: seq<Node>)
    requires AllWithin(text, nodes)
    ensures var r := NodeAfter(text, p, nodes);
            && (r.Some? ==>
                  && r.value in nodes && Within(text, r.value) && Matches(After, text, p, r.value)
                  && forall c :: c in nodes && Within(text, c) && Matches(After, text, p, c) ==>
                       r.value.start <= c.start)
            && (r.None? ==> forall c :: c in nodes && Within(text, c) ==> !Matches(After, text, p, c))
  {
    var found := Candidates(After, text, p, nodes);
    var first := SortFirst(found);
    if found != [] {
      assert found[first] in found;
    }
  }

  lemma NodeBeforeIsNearest(text: Text, p: Pos, nodes: seq<Node>)
    requires AllWithin(text, nodes)
    ensures var r := NodeBefore(text, p, nodes);
            && (r.Some? ==>
                  && r.value in nodes && Within(text, r.value) && Matches(Before, text, p, r.value)
                  && forall c :: c in nodes && Within(text, c) && Matches(Before, text, p, c) ==>
                       c.start <= r.value.start)
            && (r.None? ==> forall c :: c in nodes && Within(text, c) ==> !Matches(Before, text, p, c))
  {
    var found := Candidates(Before, text, p, nodes);
    var last := SortLast(found);
    if found != [] {
      assert found[last] in found;
    }
  }

  // ---------------------------------------------------------------- the modes

  function SearchNext(text: Text, sel: Sel, nodes: seq<Node>): Option<Sel>
    requires AllWithin(text, nodes)
  {
    match NodeAfter(text, Max(sel.anchor, sel.cursor), nodes)
    case None => None
    case Some(node) =>
      NodeAfterIsNearest(text, Max(sel.anchor, sel.cursor), nodes);
      Some(Replace(sel, NodeStart(text, node), NodeEnd(text, node)))
  }

  function SearchPrev(text: Text, sel: Sel, nodes: seq<Node>): Option<Sel>
    requires AllWithin(text, nodes)
  {
    match NodeBefore(text, Min(sel.anchor, sel.cursor), nodes)
    case None => None
    case Some(node) =>
      NodeBeforeIsNearest(text, Min(sel.anchor, sel.cursor), nodes);
      Some(Replace(sel, NodeStart(text, node), NodeEnd(text, node)))
  }

  /** The capture that find and extend go to, from the cursor. */
  function Target(text: Text, sel: Sel, nodes: seq<Node>, isPrev: bool): Option<Node>
    requires AllWithin(text, nodes)
  {
    if isPrev then NodeBefore(text, sel.cursor, nodes) else NodeAfter(text, sel.cursor, nodes)
  }

  function Find(text: Text, sel: Sel, nodes: seq<Node>, isPrev: bool): Option<Sel>
    requires AllWithin(text, nodes)
  {
    match Target(text, sel, nodes, isPrev)
    case None => None
    case Some(node) =>
      NodeAfterIsNearest(text, sel.cursor, nodes);
      NodeBeforeIsNearest(text, sel.cursor, nodes);
      Some(Sel(sel.cursor, FromTreeSitter(text, node.start)))
  }

  /** Also what the two search-extend modes do. */
  function Extend(text: Text, sel: Sel, nodes: seq<Node>, isPrev: bool): Option<Sel>
    requires AllWithin(text, nodes)
  {
    match Find(text, sel, nodes, isPrev)
    case None => None
    case Some(found) => Some(Sel(sel.anchor, found.cursor))
  }

  datatype SelectMode = ReplaceMode | ExtendMode

  datatype ObjectFlags = ObjectFlags(toBegin: bool, toEnd: bool, inner: bool)

  function ObjectTextObject(text: Text, sel: Sel, nodes: seq<Node>, mode: SelectMode, flags: ObjectFlags): Option<Sel>
    requires AllWithin(text, nodes)
  {
    match NarrowestEnclosingNode(text, sel.cursor, nodes)
    case None => None
    case Some(node) =>
      EnclosingNodeIsCandidate(text, sel.cursor, nodes);
      var start, end := NodeStart(text, node), NodeEnd(text, node);
      match mode
      case ExtendMode =>
        if flags.toBegin then Some(Sel(sel.anchor, start))
        else if flags.toEnd then Some(Sel(sel.anchor, end))
        else None
      case ReplaceMode =>
        if flags.toBegin && !flags.toEnd then Some(Sel(sel.cursor, start))
        else if !flags.toBegin && flags.toEnd then Some(Sel(sel.cursor, end))
        else if flags.toBegin && flags.toEnd then Some(Sel(start, end))
        else None
  }

  // ---------------------------------------------------------------- searching makes progress

  /** A found capture starts after everything selected before and ends the new selection. */
  lemma SearchNextStep(text: Text, sel: Sel, nodes: seq<Node>)
    requires AllWithin(text, nodes) && SearchNext(text, sel, nodes).Some?
    ensures var p := Max(sel.anchor, sel.cursor);
            var node, sel' := NodeAfter(text, p, nodes).value, SearchNext(text, sel, nodes).value;
            var p' := Max(sel'.anchor, sel'.cursor);
            && node in nodes && Within(text, node)
            && Less(p, FromTreeSitter(text, node.start))
            && Less(p, p')
            && (forall b: nat :: b <= |text| ==>
                  (Less(p', FromTreeSitter(text, b)) <==> node.end <= b && node.start < b))
  {
    var p := Max(sel.anchor, sel.cursor);
    NodeAfterIsNearest(text, p, nodes);
    var node := NodeAfter(text, p, nodes).value;
    NodeEndBounds(text, node, node.start);
    forall b: nat | b <= |text|
      ensures Less(NodeEnd(text, node), FromTreeSitter(text, b)) <==> node.end <= b
      ensures Less(NodeStart(text, node), FromTreeSitter(text, b)) <==> node.start < b
    {
      NodeEndBounds(text, node, b);
      PositionsAreOrdered(text, node.start, b);
    }
  }

  lemma {:induction false} FewerCandidates(text: Text, p: Pos, q: Pos, nodes: seq<Node>, gone: Node)
    requires AllWithin(text, nodes) && Less(p, q)
    ensures |Candidates(After, text, q, nodes)| <= |Candidates(After, text, p, nodes)|
    ensures gone in nodes && Within(text, gone) && Matches(After, text, p, gone) && !Matches(After, text, q, gone) ==>
              |Candidates(After, text, q, nodes)| < |Candidates(After, text, p, nodes)|
  {
    if nodes != [] {
      var n := |nodes| - 1;
      FewerCandidates(text, p, q, nodes[..n], gone);
      assert Matches(After, text, q, nodes[n]) ==> Matches(After, text, p, nodes[n]);
      assert gone in nodes ==> gone in nodes[..n] || gone == nodes[n];
    }
  }

  lemma SearchNextShrinks(text: Text, sel: Sel, nodes: seq<Node>)
    requires AllWithin(text, nodes) && SearchNext(text, sel, nodes).Some?
    ensures var sel' := SearchNext(text, sel, nodes).value;
            |Candidates(After, text, Max(sel'.anchor, sel'.cursor), nodes)|
            < |Candidates(After, text, Max(sel.anchor, sel.cursor), nodes)|
  {
    SearchNextStep(text, sel, nodes);
    var p, sel' := Max(sel.anchor, sel.cursor), SearchNext(text, sel, nodes).value;
    FewerCandidates(text, p, Max(sel'.anchor, sel'.cursor), nodes, NodeAfter(text, p, nodes).value);
  }

  /** The captures visited by searching on and on; that this is a function shows that it terminates. */
  ghost function Visited(text: Text, sel: Sel, nodes: seq<Node>): seq<Node>
    requires AllWithin(text, nodes)
    decreases |Candidates(After, text, Max(sel.anchor, sel.cursor), nodes)|
  {
    if SearchNext(text, sel, nodes).None? then []
    else
      SearchNextShrinks(text, sel, nodes);
      [NodeAfter(text, Max(sel.anchor, sel.cursor), nodes).value]
      + Visited(text, SearchNext(text, sel, nodes).value, nodes)
  }

  ghost predicate AheadOf(text: Text, p: Pos, nodes: seq<Node>, v: Node) {
    v in nodes && Within(text, v) && Less(p, FromTreeSitter(text, v.start))
  }

  ghost predicate Consecutive(v: seq<Node>) {
    forall i, j :: 0 <= i < j < |v| ==> v[i].start < v[j].start && v[i].end <= v[j].start
  }

  lemma AheadOfMore(text: Text, sel: Sel, nodes: seq<Node>, v: Node)
    requires AllWithin(text, nodes) && SearchNext(text, sel, nodes).Some?
    requires var sel' := SearchNext(text, sel, nodes).value;
             AheadOf(text, Max(sel'.anchor, sel'.cursor), nodes, v)
    ensures AheadOf(text, Max(sel.anchor, sel.cursor), nodes, v)
    ensures var node := NodeAfter(text, Max(sel.anchor, sel.cursor), nodes).value;
            node.start < v.start && node.end <= v.start
  {
    SearchNextStep(text, sel, nodes);
  }

  /** Searching on and on visits captures in strictly increasing order, and no two of them overlap. */
  lemma {:induction false} SearchNextVisitsInOrder(text: Text, sel: Sel, nodes: seq<Node>)
    requires AllWithin(text, nodes)
    ensures forall v :: v in Visited(text, sel, nodes) ==> AheadOf(text, Max(sel.anchor, sel.cursor), nodes, v)
    ensures Consecutive(Visited(text, sel, nodes))
    decreases |Candidates(After, text, Max(sel.anchor, sel.cursor), nodes)|
  {
    if SearchNext(text, sel, nodes).Some? {
      SearchNextShrinks(text, sel, nodes);
      var p, sel' := Max(sel.anchor, sel.cursor), SearchNext(text, sel, nodes).value;
      SearchNextVisitsInOrder(text, sel', nodes);
      var node, rest := NodeAfter(text, p, nodes).value, Visited(text, sel', nodes);
      forall v | v in rest
        ensures AheadOf(text, p, nodes, v) && node.start < v.start && node.end <= v.start
      {
        AheadOfMore(text, sel, nodes, v);
      }
      NodeAfterIsNearest(text, p, nodes);
      assert Visited(text, sel, nodes) == [node] + rest;
      assert forall i :: 0 <= i < |rest| ==> rest[i] in rest;
    }
  }

  /** It misses nothing: a capture ahead of the selection is skipped only if it starts inside a visited one. */
  lemma {:induction false} SearchNextMissesNothing(text: Text, sel: Sel, nodes: seq<Node>, c: Node) returns (v: Node)
    requires AllWithin(text, nodes) && c in nodes && Within(text, c)
    requires Less(Max(sel.anchor, sel.cursor), FromTreeSitter(text, c.start))
    ensures v in Visited(text, sel, nodes)
    ensures v.start == c.start || v.start <= c.start < v.end
    decreases |Candidates(After, text, Max(sel.anchor, sel.cursor), nodes)|
  {
    var p := Max(sel.anchor, sel.cursor);
    NodeAfterIsNearest(text, p, nodes);
    v := NodeAfter(text, p, nodes).value;
    SearchNextStep(text, sel, nodes);
    if v.start != c.start && v.end <= c.start {
      SearchNextShrinks(text, sel, nodes);
      v := SearchNextMissesNothing(text, SearchNext(text, sel, nodes).value, nodes, c);
    }
  }

  /** Searching backwards strictly lowers the beginning of the selection, and skips no start. */
  lemma SearchPrevStep(text: Text, sel: Sel, nodes: seq<Node>)
    requires AllWithin(text, nodes) && SearchPrev(text, sel, nodes).Some?
    ensures var p := Min(sel.anchor, sel.cursor);
            var node, sel' := NodeBefore(text, p, nodes).value, SearchPrev(text, sel, nodes).value;
            && Less(Min(sel'.anchor, sel'.cursor), p)
            && node in nodes && Within(text, node)
            && (node.start < node.end ==> Min(sel'.anchor, sel'.cursor) == FromTreeSitter(text, node.start))
            && (forall c :: c in nodes && Within(text, c) && Less(FromTreeSitter(text, c.start), p) ==>
                  c.start <= node.start)
  {
    var p := Min(sel.anchor, sel.cursor);
    NodeBeforeIsNearest(text, p, nodes);
    var node := NodeBefore(text, p, nodes).value;
    NodeEndBounds(text, node, node.start);
  }

  /** Find and extend put the cursor on the nearest start in their direction; find anchors at the old cursor. */
  lemma FindMovesToNearestStart(text: Text, sel: Sel, nodes: seq<Node>, isPrev: bool)
    requires AllWithin(text, nodes)
    ensures var found, extended := Find(text, sel, nodes, isPrev), Extend(text, sel, nodes, isPrev);
            && (found.Some? <==> exists c :: c in nodes && Within(text, c)
                                             && Matches(if isPrev then Before else After, text, sel.cursor, c))
            && (found.Some? ==>
                  && found.value.anchor == sel.cursor && extended == Some(Sel(sel.anchor, found.value.cursor))
                  && (if isPrev then Less(found.value.cursor, sel.cursor) else Less(sel.cursor, found.value.cursor))
                  && forall c :: c in nodes && Within(text, c)
                                 && Matches(if isPrev then Before else After, text, sel.cursor, c) ==>
                       var q := FromTreeSitter(text, c.start);
                       if isPrev then AtMost(q, found.value.cursor) else AtMost(found.value.cursor, q))
  {
    NodeAfterIsNearest(text, sel.cursor, nodes);
    NodeBeforeIsNearest(text, sel.cursor, nodes);
    var target := Target(text, sel, nodes, isPrev);
    if target.Some? {
      var start := target.value.start;
      forall c | c in nodes && Within(text, c)
        ensures Less(FromTreeSitter(text, c.start), FromTreeSitter(text, start)) <==> c.start < start
        ensures FromTreeSitter(text, c.start) == FromTreeSitter(text, start) <==> c.start == start
        ensures Less(FromTreeSitter(text, start), FromTreeSitter(text, c.start)) <==> start < c.start
      {
        PositionsAreOrdered(text, c.start, start);
        PositionsAreOrdered(text, start, c.start);
      }
    }
  }

  // ---------------------------------------------------------------- the enclosing capture

  /** Captures of a tree: any two are disjoint or one contains the other. */
  ghost predicate Nested(nodes: seq<Node>) {
    forall i, j :: 0 <= i < j < |nodes| ==> NestedPair(nodes[i], nodes[j])
  }

  predicate Contains(outer: Node, inner: Node) {
    outer.start <= inner.start && inner.end <= outer.end
  }

  /** Of captures with the same start, the outer ones come first. */
  ghost predicate OutermostFirst(nodes: seq<Node>) {
    forall i, j :: 0 <= i < j < |nodes| && nodes[i].start == nodes[j].start ==> nodes[j].end <= nodes[i].end
  }

  lemma EnclosingNodeIsCandidate(text: Text, p: Pos, nodes: seq<Node>)
    requires AllWithin(text, nodes)
    ensures var r := NarrowestEnclosingNode(text, p, nodes);
            && (r.Some? ==> r.value in nodes && Within(text, r.value) && Matches(Enclosing, text, p, r.value))
            && (r.None? <==> forall c :: c in nodes && Within(text, c) ==> !Matches(Enclosing, text, p, c))
  {
    var found := Candidates(Enclosing, text, p, nodes);
    var last := SortLast(found);
    if found != [] {
      assert found[last] in found;
    }
  }

  ghost predicate NestedPair(a: Node, b: Node) {
    a.end <= b.start || b.end <= a.start || Contains(a, b) || Contains(b, a)
  }

  lemma EnclosingNeverDisjoint(text: Text, p: Pos, a: Node, b: Node)
    requires Within(text, a) && Within(text, b)
    requires Matches(Enclosing, text, p, a) && Matches(Enclosing, text, p, b)
    ensures a.start < b.end
  {
    PositionsAreOrdered(text, b.end, a.start);
  }

  predicate Encloses(text: Text, p: Pos, node: Node)
    requires Within(text, node)
  {
    Matches(Enclosing, text, p, node)
  }

  /** `nodes[l]` is the last listed of the enclosing captures that start last. */
  ghost predicate LastStarting(text: Text, p: Pos, nodes: seq<Node>, l: nat)
    requires AllWithin(text, nodes)
  {
    && l < |nodes| && Encloses(text, p, nodes[l])
    && (forall j :: 0 <= j <= l && Encloses(text, p, nodes[j]) ==> nodes[j].start <= nodes[l].start)
    && (forall j :: l < j < |nodes| && Encloses(text, p, nodes[j]) ==> nodes[j].start < nodes[l].start)
  }

  /** One more capture at the end of the list takes over if it encloses the position and starts no earlier. */
  lemma LastStartingExtends(text: Text, p: Pos, nodes: seq<Node>, x: Node, l: nat)
    requires AllWithin(text, nodes) && Within(text, x)
    requires LastStarting(text, p, nodes, l)
    ensures AllWithin(text, nodes + [x])
    ensures LastStarting(text, p, nodes + [x],
                         if Encloses(text, p, x) && nodes[l].start <= x.start then |nodes| else l)
  {
  }

  lemma PushCandidate(text: Text, p: Pos, nodes: seq<Node>, x: Node)
    requires AllWithin(text, nodes) && Within(text, x)
    ensures AllWithin(text, nodes + [x])
    ensures Candidates(Enclosing, text, p, nodes + [x])
            == Candidates(Enclosing, text, p, nodes) + if Encloses(text, p, x) then [x] else []
    ensures SortByStart(nodes + [x]) == Insert(SortByStart(nodes), x)
  {
    assert (nodes + [x])[..|nodes|] == nodes;
  }

  lemma PushChosen(text: Text, p: Pos, nodes: seq<Node>, x: Node)
    requires AllWithin(text, nodes) && Within(text, x)
    ensures AllWithin(text, nodes + [x])
    ensures NarrowestEnclosingNode(text, p, nodes + [x])
            == match NarrowestEnclosingNode(text, p, nodes)
               case None => if Encloses(text, p, x) then Some(x) else None
               case Some(chosen) => if Encloses(text, p, x) && chosen.start <= x.start then Some(x) else Some(chosen)
  {
    PushCandidate(text, p, nodes, x);
    var before := Candidates(Enclosing, text, p, nodes);
    var _ := SortLast(before);
    if Encloses(text, p, x) {
      assert (before + [x])[..|before|] == before;
      InsertLast(SortByStart(before), x);
    } else {
      assert before + [] == before;
    }
  }

  /** That capture is the chosen one. */
  lemma {:induction false} ChosenIsLastStarting(text: Text, p: Pos, nodes: seq<Node>) returns (l: nat)
    requires AllWithin(text, nodes) && NarrowestEnclosingNode(text, p, nodes).Some?
    ensures LastStarting(text, p, nodes, l)
    ensures NarrowestEnclosingNode(text, p, nodes) == Some(nodes[l])
  {
    l := 0;
    if nodes != [] {
      var before, x := nodes[..|nodes| - 1], nodes[|nodes| - 1];
      assert nodes == before + [x];
      PushChosen(text, p, before, x);
      if NarrowestEnclosingNode(text, p, before).Some? {
        l := ChosenIsLastStarting(text, p, before);
        LastStartingExtends(text, p, before, x, l);
        if Encloses(text, p, x) && before[l].start <= x.start {
          l := |before|;
        }
      } else {
        l := |before|;
        EnclosingNodeIsCandidate(text, p, before);
        assert forall j :: 0 <= j < |before| ==> before[j] in before && !Encloses(text, p, before[j]);
      }
    }
  }

  /** Of the enclosing captures with the largest start, the one listed last is the shortest. */
  ghost predicate LastListedIsShortest(text: Text, p: Pos, nodes: seq<Node>)
    requires AllWithin(text, nodes)
  {
    forall l: nat, j :: LastStarting(text, p, nodes, l)
      && 0 <= j < |nodes| && Encloses(text, p, nodes[j]) && nodes[j].start == nodes[l].start
      ==> nodes[l].end <= nodes[j].end
  }

  /** The capture that is chosen lies within every capture that encloses the position. */
  ghost predicate ChoosesNarrowest(text: Text, p: Pos, nodes: seq<Node>)
    requires AllWithin(text, nodes)
  {
    forall j :: 0 <= j < |nodes| && Encloses(text, p, nodes[j]) ==>
      && NarrowestEnclosingNode(text, p, nodes).Some?
      && Contains(nodes[j], NarrowestEnclosingNode(text, p, nodes).value)
  }

  /** Exactly when the choice is right, on the captures of a tree. */
  lemma NarrowestIffLastListedIsShortest(text: Text, p: Pos, nodes: seq<Node>)
    requires AllWithin(text, nodes) && Nested(nodes)
    ensures ChoosesNarrowest(text, p, nodes) <==> LastListedIsShortest(text, p, nodes)
  {
    EnclosingNodeIsCandidate(text, p, nodes);
    if NarrowestEnclosingNode(text, p, nodes) == None {
      forall j | 0 <= j < |nodes|
        ensures !Encloses(text, p, nodes[j])
      {
        assert nodes[j] in nodes;
      }
    } else {
      var l := ChosenIsLastStarting(text, p, nodes);
      if LastListedIsShortest(text, p, nodes) {
        forall j | 0 <= j < |nodes| && Encloses(text, p, nodes[j])
          ensures Contains(nodes[j], nodes[l])
        {
          EnclosingNeverDisjoint(text, p, nodes[j], nodes[l]);
          EnclosingNeverDisjoint(text, p, nodes[l], nodes[j]);
          if j != l {
            assert NestedPair(nodes[if j < l then j else l], nodes[if j < l then l else j]);
          }
        }
      }
      forall k: nat | LastStarting(text, p, nodes, k)
        ensures k == l
      {
      }
    }
  }

  /** It is right wherever the position is if equal starts are listed outermost first. */
  lemma ChosenIsNarrowest(text: Text, p: Pos, nodes: seq<Node>)
    requires AllWithin(text, nodes) && Nested(nodes) && OutermostFirst(nodes)
    ensures ChoosesNarrowest(text, p, nodes)
  {
    NarrowestIffLastListedIsShortest(text, p, nodes);
  }

  lemma TwoCandidates(text: Text, p: Pos, a: Node, b: Node)
    requires Within(text, a) && Within(text, b) && a.start == b.start
    requires Encloses(text, p, a) && Encloses(text, p, b)
    ensures AllWithin(text, [a, b]) && NarrowestEnclosingNode(text, p, [a, b]) == Some(b)
  {
    assert [a, b][0] == a;
    PushChosen(text, p, [], a);
    assert [] + [a] == [a];
    PushChosen(text, p, [a], b);
    assert [a] + [b] == [a, b];
  }

  lemma ChoosesWider(text: Text, p: Pos, a: Node, b: Node)
    requires AllWithin(text, [a, b]) && NarrowestEnclosingNode(text, p, [a, b]) == Some(b)
    requires Encloses(text, p, [a, b][0]) && a.end < b.end
    ensures !ChoosesNarrowest(text, p, [a, b])
  {
    assert !Contains(a, b);
  }

  /** The order of the list matters: with the inner capture first, the outer one is chosen. */
  lemma InnermostFirstChoosesOuter()
    ensures var text, inner, outer := "abc", Node(0, 2), Node(0, 3);
            && NarrowestEnclosingNode(text, Pos(1, 2), [inner, outer]) == Some(outer)
            && Matches(Enclosing, text, Pos(1, 2), inner)
            && Contains(outer, inner) && inner != outer
            && AllWithin(text, [inner, outer]) && !ChoosesNarrowest(text, Pos(1, 2), [inner, outer])
  {
    var text := "abc";
    assert ByteToLine(text, 1) == 0;
    assert ByteToLine(text, 2) == 0;
    assert ByteToLine(text, 3) == 0;
    TwoCandidates(text, Pos(1, 2), Node(0, 2), Node(0, 3));
    ChoosesWider(text, Pos(1, 2), Node(0, 2), Node(0, 3));
  }

  /** Asking for the whole object selects exactly the enclosing capture. */
  lemma WholeObjectSelectsCapture(text: Text, sel: Sel, nodes: seq<Node>, inner: bool)
    requires AllWithin(text, nodes)
    ensures var r := ObjectTextObject(text, sel, nodes, ReplaceMode, ObjectFlags(true, true, inner));
            var node := NarrowestEnclosingNode(text, sel.cursor, nodes);
            && (r.Some? <==> node.Some?)
            && (r.Some? ==> Within(text, node.value) && FullySelects(r.value, text, node.value))
  {
    EnclosingNodeIsCandidate(text, sel.cursor, nodes);
    var node := NarrowestEnclosingNode(text, sel.cursor, nodes);
    if node.Some? {
      PositionsAreOrdered(text, node.value.start, node.value.end);
      NodeEndBounds(text, node.value, node.value.start);
    }
  }

  /**
   * The two halves of an object meet at the cursor: back to the beginning, on to the end, and together they
   * reach exactly as far as the whole object. Extending moves the cursor to the same places.
   */
  lemma HalvesMeetAtCursor(text: Text, sel: Sel, nodes: seq<Node>, inner: bool)
    requires AllWithin(text, nodes) && NarrowestEnclosingNode(text, sel.cursor, nodes).Some?
    ensures var back := ObjectTextObject(text, sel, nodes, ReplaceMode, ObjectFlags(true, false, inner));
            var on := ObjectTextObject(text, sel, nodes, ReplaceMode, ObjectFlags(false, true, inner));
            var whole := ObjectTextObject(text, sel, nodes, ReplaceMode, ObjectFlags(true, true, inner));
            && back.Some? && on.Some? && whole.Some?
            && back.value.anchor == sel.cursor == on.value.anchor
            && Less(back.value.cursor, sel.cursor) && AtMost(sel.cursor, on.value.cursor)
            && whole.value == Sel(back.value.cursor, on.value.cursor)
    ensures forall toEnd ::
              var flags := ObjectFlags(true, toEnd, inner);
              var extended := ObjectTextObject(text, sel, nodes, ExtendMode, flags);
              var back := ObjectTextObject(text, sel, nodes, ReplaceMode, flags.(toEnd := false));
              extended.Some? && extended.value == Sel(sel.anchor, back.value.cursor)
    ensures var flags := ObjectFlags(false, true, inner);
            var extended := ObjectTextObject(text, sel, nodes, ExtendMode, flags);
            var on := ObjectTextObject(text, sel, nodes, ReplaceMode, flags);
            extended.Some? && extended.value == Sel(sel.anchor, on.value.cursor)
  {
    EnclosingNodeIsCandidate(text, sel.cursor, nodes);
  }

  /** Without a side to go to, there is no object. */
  lemma NoEdgeNoObject(text: Text, sel: Sel, nodes: seq<Node>, mode: SelectMode, inner: bool)
    requires AllWithin(text, nodes)
    ensures ObjectTextObject(text, sel, nodes, mode, ObjectFlags(false, false, inner)) == None
  {
  }

  /** Searching selects the whole capture it goes to, in the direction the selection had. */
  lemma SearchSelectsCapture(text: Text, sel: Sel, nodes: seq<Node>)
    requires AllWithin(text, nodes)
    ensures var found, node := SearchNext(text, sel, nodes), NodeAfter(text, Max(sel.anchor, sel.cursor), nodes);
            && (found.Some? <==> node.Some?)
            && (found.Some? && node.value.start < node.value.end ==>
                  Within(text, node.value) && FullySelects(found.value, text, node.value)
                  && (Backward(found.value) <==> Backward(sel) && found.value.anchor != found.value.cursor))
    ensures var found, node := SearchPrev(text, sel, nodes), NodeBefore(text, Min(sel.anchor, sel.cursor), nodes);
            && (found.Some? <==> node.Some?)
            && (found.Some? && node.value.start < node.value.end ==>
                  Within(text, node.value) && FullySelects(found.value, text, node.value)
                  && (Backward(found.value) <==> Backward(sel) && found.value.anchor != found.value.cursor))
  {
    NodeAfterIsNearest(text, Max(sel.anchor, sel.cursor), nodes);
    NodeBeforeIsNearest(text, Min(sel.anchor, sel.cursor), nodes);
    var next := NodeAfter(text, Max(sel.anchor, sel.cursor), nodes);
    var prev := NodeBefore(text, Min(sel.anchor, sel.cursor), nodes);
    if next.Some? {
      SelectedNodeIsRecognised(sel, text, next.value);
    }
    if prev.Some? {
      SelectedNodeIsRecognised(sel, text, prev.value);
    }
  }
}

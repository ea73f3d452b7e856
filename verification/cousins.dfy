/** Moving sideways in a syntax tree: to a sibling or, at the edge of the family, to a cousin. */
module Cousins {
  import opened Options

  datatype Tree = Tree(children: seq<Tree>)

  /** A node is the path of child indices that leads to it from the root. */
  type Path = seq<nat>

  predicate Exists(t: Tree, n: Path) {
    n == [] || (n[0] < |t.children| && Exists(t.children[n[0]], n[1..]))
  }

  function ChildCount(t: Tree, n: Path): nat
    requires Exists(t, n)
  {
    if n == [] then |t.children| else ChildCount(t.children[n[0]], n[1..])
  }

  /** A node below `n` exists exactly when its index is smaller than the number of children. */
  lemma {:induction false} ChildExists(t: Tree, n: Path, i: nat)
    ensures Exists(t, n + [i]) <==> Exists(t, n) && i < ChildCount(t, n)
  {
    if n == [] {
      assert ([] + [i])[1..] == [];
    } else if n[0] < |t.children| {
      assert (n + [i])[1..] == n[1..] + [i];
      ChildExists(t.children[n[0]], n[1..], i);
    }
  }

  function Child(t: Tree, n: Path, i: nat): Option<Path>
    requires Exists(t, n)
  {
    if i < ChildCount(t, n) then Some(n + [i]) else None
  }

  function Parent(n: Path): Option<Path> {
    if n == [] then None else Some(n[..|n| - 1])
  }

  function Index(n: Path): nat
    requires n != []
  {
    n[|n| - 1]
  }

  lemma ParentExists(t: Tree, n: Path)
    requires Exists(t, n) && n != []
    ensures n == Parent(n).value + [Index(n)]
    ensures Exists(t, Parent(n).value) && Index(n) < ChildCount(t, Parent(n).value)
  {
    assert n == Parent(n).value + [Index(n)];
    ChildExists(t, Parent(n).value, Index(n));
  }

  function NextSibling(t: Tree, n: Path): (m: Option<Path>)
    requires Exists(t, n)
    ensures m.Some? ==> Exists(t, m.value)
  {
    if n == [] then None
    else
      ParentExists(t, n);
      var parent := Parent(n).value;
      ChildExists(t, parent, Index(n) + 1);
      Child(t, parent, Index(n) + 1)
  }

  function PrevSibling(t: Tree, n: Path): (m: Option<Path>)
    requires Exists(t, n)
    ensures m.Some? ==> Exists(t, m.value)
  {
    if n == [] || Index(n) == 0 then None
    else
      ParentExists(t, n);
      var parent := Parent(n).value;
      ChildExists(t, parent, Index(n) - 1);
      Child(t, parent, Index(n) - 1)
  }

  function NextSiblingOrCousin(t: Tree, n: Path): (m: Option<Path>)
    requires Exists(t, n)
    ensures m.Some? ==> Exists(t, m.value)
  {
    if NextSibling(t, n).Some? then NextSibling(t, n)
    else if n == [] then None
    else
      ParentExists(t, n);
      match NextSibling(t, Parent(n).value)
      case None => None
      case Some(uncle) =>
        ChildExists(t, uncle, 0);
        if ChildCount(t, uncle) > 0 then Child(t, uncle, 0) else None
  }

  function PrevSiblingOrCousin(t: Tree, n: Path): (m: Option<Path>)
    requires Exists(t, n)
    ensures m.Some? ==> Exists(t, m.value)
  {
    if PrevSibling(t, n).Some? then PrevSibling(t, n)
    else if n == [] then None
    else
      ParentExists(t, n);
      match PrevSibling(t, Parent(n).value)
      case None => None
      case Some(uncle) =>
        if ChildCount(t, uncle) > 0 then
          ChildExists(t, uncle, ChildCount(t, uncle) - 1);
          Child(t, uncle, ChildCount(t, uncle) - 1)
        else None
  }

  // ---------------------------------------------------------------- what the moves mean

  /** `m` is the sibling right of `n`. */
  predicate SiblingStep(n: Path, m: Path) {
    |n| == |m| > 0 && n[..|n| - 1] == m[..|n| - 1] && Index(m) == Index(n) + 1
  }

  /** `n` is the last child of its parent, and `m` the first child of the parent's right sibling. */
  predicate CousinStep(t: Tree, n: Path, m: Path)
    requires Exists(t, n)
  {
    && |n| == |m| >= 2
    && SiblingStep(n[..|n| - 1], m[..|m| - 1])
    && Index(m) == 0
    && (ParentExists(t, n); Index(n) + 1 == ChildCount(t, n[..|n| - 1]))
  }

  predicate Step(t: Tree, n: Path, m: Path)
    requires Exists(t, n)
  {
    SiblingStep(n, m) || CousinStep(t, n, m)
  }

  lemma NextSiblingIs(t: Tree, n: Path, m: Path)
    requires Exists(t, n) && Exists(t, m)
    ensures NextSibling(t, n) == Some(m) <==> SiblingStep(n, m)
  {
    if SiblingStep(n, m) {
      ParentExists(t, m);
      assert m == Parent(n).value + [Index(n) + 1];
    }
  }

  lemma PrevSiblingIs(t: Tree, n: Path, m: Path)
    requires Exists(t, n) && Exists(t, m)
    ensures PrevSibling(t, m) == Some(n) <==> SiblingStep(n, m)
  {
    if SiblingStep(n, m) {
      ParentExists(t, n);
      assert n == Parent(m).value + [Index(m) - 1];
    }
  }

  lemma NoSibling(t: Tree, n: Path)
    requires Exists(t, n) && n != []
    ensures Exists(t, n[..|n| - 1])
    ensures NextSibling(t, n).None? <==> Index(n) + 1 == ChildCount(t, n[..|n| - 1])
    ensures PrevSibling(t, n).None? <==> Index(n) == 0
  {
    ParentExists(t, n);
  }

  /** Without a right sibling, the move is to the first child of the parent's right sibling. */
  lemma NextCousinIs(t: Tree, n: Path, m: Path)
    requires Exists(t, n) && Exists(t, m) && NextSibling(t, n).None?
    ensures NextSiblingOrCousin(t, n) == Some(m) <==> CousinStep(t, n, m)
  {
    if n != [] {
      NoSibling(t, n);
      var p := Parent(n).value;
      if m != [] {
        ParentExists(t, m);
        NextSiblingIs(t, p, m[..|m| - 1]);
      }
      if NextSibling(t, p).Some? {
        var uncle := NextSibling(t, p).value;
        assert (uncle + [0])[..|uncle|] == uncle;
      }
    }
  }

  lemma PrevCousinIs(t: Tree, n: Path, m: Path)
    requires Exists(t, n) && Exists(t, m) && PrevSibling(t, m).None?
    ensures PrevSiblingOrCousin(t, m) == Some(n) <==> CousinStep(t, n, m)
  {
    if m != [] {
      NoSibling(t, m);
      var p := Parent(m).value;
      if n != [] {
        ParentExists(t, n);
        PrevSiblingIs(t, n[..|n| - 1], p);
      }
      if PrevSibling(t, p).Some? {
        var uncle := PrevSibling(t, p).value;
        if ChildCount(t, uncle) > 0 {
          assert (uncle + [ChildCount(t, uncle) - 1])[..|uncle|] == uncle;
        }
      }
    }
  }

  lemma NextIsStep(t: Tree, n: Path, m: Path)
    requires Exists(t, n) && Exists(t, m)
    ensures NextSiblingOrCousin(t, n) == Some(m) <==> Step(t, n, m)
  {
    NextSiblingIs(t, n, m);
    if NextSibling(t, n).None? {
      NextCousinIs(t, n, m);
    } else {
      NoSibling(t, n);
    }
  }

  lemma PrevIsStep(t: Tree, n: Path, m: Path)
    requires Exists(t, n) && Exists(t, m)
    ensures PrevSiblingOrCousin(t, m) == Some(n) <==> Step(t, n, m)
  {
    PrevSiblingIs(t, n, m);
    if PrevSibling(t, m).None? {
      PrevCousinIs(t, n, m);
    } else {
      NoSibling(t, m);
    }
  }

  /** The two moves invert each other, on every tree. */
  lemma CousinMovesInvert(t: Tree, n: Path, m: Path)
    requires Exists(t, n) && Exists(t, m)
    ensures NextSiblingOrCousin(t, n) == Some(m) <==> PrevSiblingOrCousin(t, m) == Some(n)
  {
    NextIsStep(t, n, m);
    PrevIsStep(t, n, m);
  }

  /** The first place where two nodes of the same depth differ says which one is further left. */
  ghost predicate LeftOf(n: Path, m: Path) {
    |n| == |m| && exists k :: 0 <= k < |n| && n[..k] == m[..k] && n[k] < m[k]
  }

  /** Right moves go strictly to the right at the same depth, and jump over no node of that depth. */
  lemma NextIsAdjacent(t: Tree, n: Path, m: Path, x: Path)
    requires Exists(t, n) && NextSiblingOrCousin(t, n) == Some(m)
    ensures LeftOf(n, m)
    ensures Exists(t, x) ==> !(LeftOf(n, x) && LeftOf(x, m))
  {
    NextIsStep(t, n, m);
    var d := |n| - 1;
    var c := if SiblingStep(n, m) then d else d - 1;
    assert n[..c] == m[..c] by {
      assert n[..d][..c] == n[..c] && m[..d][..c] == m[..c];
    }
    assert n[c] + 1 == m[c];
    if Exists(t, x) && LeftOf(n, x) && LeftOf(x, m) {
      BetweenSharesPrefix(n, m, x, c);
      if x[c] == n[c] {
        // only the last index is left to differ, and the index of `n` is the largest
        BelowLastChild(t, n, x, c);
      }
    }
  }

  /** A node between two nodes agrees with them as long as they agree, and then lies between them. */
  lemma BetweenSharesPrefix(n: Path, m: Path, x: Path, c: nat)
    requires LeftOf(n, x) && LeftOf(x, m) && c < |n| == |m| && n[..c] == m[..c]
    ensures x[..c] == n[..c] && n[c] <= x[c] <= m[c]
    ensures x[c] == m[c] ==> exists k :: c < k < |m| && x[..k] == m[..k] && x[k] < m[k]
    ensures x[c] == n[c] ==> exists k :: c < k < |n| && x[..k] == n[..k] && n[k] < x[k]
  {
    var a :| 0 <= a < |n| && n[..a] == x[..a] && n[a] < x[a];
    var b :| 0 <= b < |x| && x[..b] == m[..b] && x[b] < m[b];
    assert forall i :: 0 <= i < c ==> n[i] == m[i] by {
      assert forall i :: 0 <= i < c ==> n[..c][i] == m[..c][i];
    }
    assert forall i :: 0 <= i < a ==> n[i] == x[i] by {
      assert forall i :: 0 <= i < a ==> n[..a][i] == x[..a][i];
    }
    assert forall i :: 0 <= i < b ==> x[i] == m[i] by {
      assert forall i :: 0 <= i < b ==> x[..b][i] == m[..b][i];
    }
    assert a >= c && b >= c;
  }

  /** Nothing below the same parent is to the right of the last child. */
  lemma BelowLastChild(t: Tree, n: Path, x: Path, c: nat)
    requires Exists(t, n) && Exists(t, x) && |n| == |x| && c + 2 == |n|
    requires Index(n) + 1 == (ParentExists(t, n); ChildCount(t, n[..|n| - 1]))
    ensures !exists k :: c < k < |n| && x[..k] == n[..k] && n[k] < x[k]
  {
    ParentExists(t, n);
    ParentExists(t, x);
  }

  /** The move goes to the nearest uncle only: if that one has no children, it fails. */
  lemma ChildlessUncleStopsTheMove()
    ensures var leaf := Tree([]);
            var t := Tree([Tree([leaf]), leaf, Tree([leaf])]);
            Exists(t, [0, 0]) && Exists(t, [2, 0]) && NextSiblingOrCousin(t, [0, 0]) == None
  {
    var leaf := Tree([]);
    var t := Tree([Tree([leaf]), leaf, Tree([leaf])]);
    assert [0, 0][1..] == [0] && [2, 0][1..] == [0] && [0][1..] == [];
    assert [0, 0][..1] == [0] && [0][..0] == [];
    assert [] + [1] == [1] && [1][1..] == [];
    assert Exists(t.children[0], [0]) && Exists(t.children[2], [0]);
    assert ChildCount(t, [0]) == ChildCount(t.children[0], []) == 1;
    assert ChildCount(t, [1]) == ChildCount(t.children[1], []) == 0;
    assert ChildCount(t, []) == 3;
    assert NextSibling(t, [0, 0]) == None;
    assert NextSibling(t, [0]) == Some([1]);
  }
}

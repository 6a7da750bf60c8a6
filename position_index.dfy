/** The position lookup on tree values: which child a scan selects for an
    offset, and the path the repeated scan follows from a node down. The
    imperative lookup in AstReader is proved against these functions. */
module PositionIndex {
  import opened ClangAst
  import opened AstTree

  /** findPosInChildren on values: the index of the first tree whose
      main-file range contains `position`, or None. */
  function FirstMatch(ts: seq<Tree>, position: int, sm: SourceManager): (r: Option<nat>)
    ensures r.None? <==> forall i :: 0 <= i < |ts| ==> !Located(ts[i].payload, position, sm)
    ensures r.Some? ==>
      r.value < |ts| && Located(ts[r.value].payload, position, sm) &&
      forall i :: 0 <= i < r.value ==> !Located(ts[i].payload, position, sm)
  {
    if ts == [] then None
    else if Located(ts[0].payload, position, sm) then Some(0)
    else
      match FirstMatch(ts[1..], position, sm)
      case None => None
      case Some(k) => Some(k + 1)
  }

  /** The path the descent visits from `t`: `t`, then the path from its
      first located child, until no child is located. */
  function BestPath(t: Tree, position: int, sm: SourceManager): seq<Tree>
    decreases t
  {
    match FirstMatch(t.children, position, sm)
    case None => [t]
    case Some(k) => [t] + BestPath(t.children[k], position, sm)
  }

  /** `child` is the child the scan under `parent` selects. */
  predicate SelectedChild(parent: Tree, child: Tree, position: int, sm: SourceManager) {
    var m := FirstMatch(parent.children, position, sm);
    m.Some? && child == parent.children[m.value]
  }

  /** The chain law of a descent path: every element after the first is the
      child its predecessor's scan selects and contains the position, and
      the scan under the last element selects nothing. */
  predicate IsDescent(p: seq<Tree>, position: int, sm: SourceManager) {
    |p| >= 1 &&
    (forall k :: 0 <= k < |p| - 1 ==> SelectedChild(p[k], p[k + 1], position, sm)) &&
    (forall k :: 1 <= k < |p| ==> Located(p[k].payload, position, sm)) &&
    FirstMatch(p[|p| - 1].children, position, sm).None?
  }

  /** The path BestPath computes from `t` starts at `t` and obeys the chain law. */
  lemma {:induction false} BestPathChain(t: Tree, position: int, sm: SourceManager)
    ensures BestPath(t, position, sm)[0] == t
    ensures IsDescent(BestPath(t, position, sm), position, sm)
    decreases t
  {
    match FirstMatch(t.children, position, sm)
    case None =>
    case Some(j) =>
      var rest := BestPath(t.children[j], position, sm);
      BestPathChain(t.children[j], position, sm);
      var p := BestPath(t, position, sm);
      assert p == [t] + rest;
      assert SelectedChild(p[0], p[1], position, sm);
      forall k | 1 <= k < |p| - 1
        ensures SelectedChild(p[k], p[k + 1], position, sm)
      {
        assert p[k] == rest[k - 1] && p[k + 1] == rest[k];
      }
      forall k | 1 <= k < |p|
        ensures Located(p[k].payload, position, sm)
      {
        assert p[k] == rest[k - 1];
      }
      assert p[|p| - 1] == rest[|rest| - 1];
  }

  /** A descent path from `t` is unique: it is the one BestPath computes. */
  lemma {:induction false} DescentIsBestPath(p: seq<Tree>, position: int, sm: SourceManager)
    requires IsDescent(p, position, sm)
    ensures p == BestPath(p[0], position, sm)
    decreases |p|
  {
    if |p| > 1 {
      assert SelectedChild(p[0], p[1], position, sm);
      var rest := p[1..];
      forall k | 0 <= k < |rest| - 1
        ensures SelectedChild(rest[k], rest[k + 1], position, sm)
      {
        assert rest[k] == p[k + 1] && rest[k + 1] == p[k + 2];
      }
      forall k | 1 <= k < |rest|
        ensures Located(rest[k].payload, position, sm)
      {
        assert rest[k] == p[k + 1];
      }
      DescentIsBestPath(rest, position, sm);
      assert p == [p[0]] + rest;
    }
  }

  /** The descent only ever moves to a child: its path is no longer than
      the tree is deep. */
  function Depth(t: Tree): (d: nat)
    ensures d >= 1
    decreases t
  {
    1 + DepthForest(t.children)
  }

  function DepthForest(ts: seq<Tree>): (d: nat)
    ensures forall i :: 0 <= i < |ts| ==> Depth(ts[i]) <= d
    decreases ts
  {
    if ts == [] then 0
    else
      var d0 := Depth(ts[|ts| - 1]);
      var d1 := DepthForest(ts[..|ts| - 1]);
      assert forall i :: 0 <= i < |ts| - 1 ==> ts[..|ts| - 1][i] == ts[i];
      if d0 < d1 then d1 else d0
  }

  lemma {:induction false} BestPathDepth(t: Tree, position: int, sm: SourceManager)
    ensures |BestPath(t, position, sm)| <= Depth(t)
    decreases t
  {
    match FirstMatch(t.children, position, sm)
    case None =>
    case Some(j) =>
      BestPathDepth(t.children[j], position, sm);
  }

  /** Ranges along the path need not nest: the descent only asks that each
      selected child contain the position, so a child whose range reaches
      beyond its parent's is still selected. Here the parent spans offsets
      5..6 and its only child 1..10, and offset 5 selects the child. */
  lemma NestingNotImplied()
    ensures var sm := SourceManager(1, (l: SourceLocation) => DecomposedLoc(1, l), (l: SourceLocation) => l);
      var child := Tree("IntegerLiteral", StmtPtr(Some(Stmt("IntegerLiteral", None, SourceRange(1, 10), []))), []);
      var parent := Tree("ImplicitCastExpr", StmtPtr(Some(Stmt("ImplicitCastExpr", None, SourceRange(5, 6), []))), [child]);
      var p := BestPath(parent, 5, sm);
      p == [parent, child] &&
      RangeInMainFile(parent.payload, sm) == Some((5, 6)) &&
      RangeInMainFile(child.payload, sm) == Some((1, 10))
  {
  }
}

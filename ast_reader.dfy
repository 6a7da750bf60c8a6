/** AstReader: owns the viewer's tree and answers position queries on it.
    `readAst` hands the source text to the front end (here: receives its
    result as a parameter) and builds the tree under an artificial root:
    artificial root, then a node labelled "AST", then the translation unit. */
module Reader {
  import opened ClangAst
  import opened AstTree
  import opened GenericAst
  import opened AstDump
  import opened PositionIndex

  class AstReader {
    var mySourceCode: string
    var myArtificialRoot: GenericAstNode?
    var myAst: Option<ParsedAst>

    ghost var Repr: set<object>

    /** The state readAst leaves: an artificial root whose only child is the
        "AST" node, each a valid tree. */
    ghost predicate Valid()
      reads this, Repr
    {
      this in Repr && myArtificialRoot != null &&
      myArtificialRoot in Repr && myArtificialRoot.Repr <= Repr &&
      myArtificialRoot.Valid() && |myArtificialRoot.children| == 1 &&
      myArtificialRoot.children[0].name == "AST"
    }

    /** Before readAst there is no tree and no parse. */
    constructor ()
      ensures myArtificialRoot == null && myAst.None? && mySourceCode == ""
    {
      mySourceCode := "";
      myArtificialRoot := null;
      myAst := None;
      Repr := {this};
    }

    /** getRealRoot: the "AST" node, first child of the artificial root. */
    function GetRealRoot(): (r: GenericAstNode)
      reads this, Repr
      requires Valid()
      ensures r.Valid() && r.name == "AST" && r.parent == myArtificialRoot
      ensures r.Model == myArtificialRoot.Model.children[0]
    {
      myArtificialRoot.children[0]
    }

    /** findPosInChildren: the first candidate whose main-file range exists and
        contains `position` (both ends included), or null; `index` is its
        place among the candidates. */
    method FindPosInChildren(candidates: seq<GenericAstNode>, position: int)
      returns (r: GenericAstNode?, ghost index: int)
      requires myAst.Some?
      ensures r == null <==>
        forall i :: 0 <= i < |candidates| ==> !Located(candidates[i].payload, position, myAst.value.manager)
      ensures r != null ==>
        0 <= index < |candidates| && r == candidates[index] &&
        Located(r.payload, position, myAst.value.manager) &&
        forall i :: 0 <= i < index ==> !Located(candidates[i].payload, position, myAst.value.manager)
    {
      var manager := myAst.value.manager;
      var n := 0;
      while n < |candidates|
        invariant 0 <= n <= |candidates|
        invariant forall i :: 0 <= i < n ==> !Located(candidates[i].payload, position, manager)
      {
        var candidate := candidates[n];
        var found, location := candidate.GetRangeInMainFile((0, 0), manager);
        if found && location.0 <= position <= location.1 {
          return candidate, n;
        }
        n := n + 1;
      }
      return null, -1;
    }

    /** getBestNodeMatchingPosition: the real root, the translation unit, then
        repeatedly the first child containing `position`, until none does.
        The path below the real root is the one BestPath computes on the
        translation unit's value. */
    method GetBestNodeMatchingPosition(position: int) returns (result: seq<GenericAstNode>)
      requires Valid() && myAst.Some?
      requires |GetRealRoot().children| > 0
      ensures |result| >= 2 && result[0] == GetRealRoot() && result[1] == GetRealRoot().children[0]
      ensures forall k :: 1 <= k < |result| - 1 ==> FirstLocatedChild(result[k], result[k + 1], position, myAst.value.manager)
      ensures NoLocatedChild(result[|result| - 1], position, myAst.value.manager)
      ensures var path := BestPath(GetRealRoot().children[0].Model, position, myAst.value.manager);
        |result| == |path| + 1 && forall k :: 1 <= k < |result| ==> result[k].Model == path[k - 1]
    {
      var currentNode := GetRealRoot();
      result := [currentNode];
      currentNode := currentNode.children[0];
      // the translation unit has no position of its own
      var descent := Descend(currentNode, position);
      DescentModels(descent, position, myAst.value.manager);
      result := result + descent;
    }

    /** The loop of getBestNodeMatchingPosition, from the translation unit
        down: the nodes visited, starting with `start`. */
    method Descend(start: GenericAstNode, position: int) returns (result: seq<GenericAstNode>)
      requires start.Valid() && myAst.Some?
      ensures |result| >= 1 && result[0] == start
      ensures forall k :: 0 <= k < |result| - 1 ==> FirstLocatedChild(result[k], result[k + 1], position, myAst.value.manager)
      ensures NoLocatedChild(result[|result| - 1], position, myAst.value.manager)
    {
      ghost var sm := myAst.value.manager;
      var currentNode := start;
      result := [currentNode];
      while true
        invariant |result| >= 1 && result[0] == start && currentNode == result[|result| - 1]
        invariant currentNode.Valid()
        invariant forall k :: 0 <= k < |result| - 1 ==> FirstLocatedChild(result[k], result[k + 1], position, sm)
        decreases currentNode.Repr
      {
        var bestChild, index := FindPosInChildren(currentNode.children, position);
        if bestChild == null {
          return;
        }
        SelectedChildStep(currentNode, index, position, sm);
        result := result + [bestChild];
        currentNode := bestChild;
      }
    }

    /** readAst: store the source, build the artificial root and the "AST"
        node, and walk the translation unit under the "AST" node. The front
        end's result for `sourceCode` under the flags in `options` is given
        as `ast`. */
    method ReadAst(sourceCode: string, options: string, ast: ParsedAst) returns (root: GenericAstNode)
      requires ast.translationUnit.Kind() == DeclKind
      modifies this
      ensures Valid() && fresh(Repr - {this})
      ensures root == myArtificialRoot && mySourceCode == sourceCode && myAst == Some(ast)
      ensures root.Model == Tree("", NullPayload, [Tree("AST", NullPayload, Built(ast.translationUnit))])
    {
      mySourceCode := sourceCode;
      myAst := Some(ast);
      root := BuildTree(ast.translationUnit);
      myArtificialRoot := root;
      Repr := {this} + root.Repr;
    }
  }

  /** The tree readAst builds: an artificial root, the "AST" node as its only
      child, and below it what the builder makes of the translation unit. */
  method BuildTree(unit: Construct) returns (artificialRoot: GenericAstNode)
    requires unit.Kind() == DeclKind
    ensures fresh(artificialRoot.Repr)
    ensures artificialRoot.Valid() && |artificialRoot.children| == 1 && artificialRoot.children[0].name == "AST"
    ensures artificialRoot.Model == Tree("", NullPayload, [Tree("AST", NullPayload, Built(unit))])
  {
    var realRoot;
    artificialRoot, realRoot := NewSkeleton();
    var visitor := new AstDumpVisitor(realRoot);
    visitor.TraverseDecl(unit);
    ghost var built := realRoot.Repr;
    assert fresh(built - {realRoot});
    assert realRoot.Model == Tree("AST", NullPayload, Built(unit));
    assert artificialRoot.children == [realRoot] && realRoot.name == "AST";
    artificialRoot.AbsorbLastChild();
    assert artificialRoot.Repr == {artificialRoot} + built;
    assert artificialRoot.Model.children == [realRoot.Model];
  }

  /** The start of readAst: a fresh artificial root with a fresh "AST" node
      attached as its only child, the node the builder fills next. */
  method NewSkeleton() returns (artificialRoot: GenericAstNode, realRoot: GenericAstNode)
    ensures fresh(artificialRoot) && fresh(realRoot)
    ensures artificialRoot.children == [realRoot] && artificialRoot.ValidExceptLast()
    ensures artificialRoot.Repr == {artificialRoot, realRoot}
    ensures artificialRoot.Model == Tree("", NullPayload, [realRoot.Model])
    ensures realRoot.Valid() && realRoot.Repr == {realRoot} && realRoot.parent == artificialRoot
    ensures realRoot.name == "AST" && realRoot.Model == Tree("AST", NullPayload, [])
  {
    artificialRoot := new GenericAstNode();
    realRoot := new GenericAstNode();
    realRoot.name := "AST";
    realRoot.Model := Tree("AST", NullPayload, []);
    artificialRoot.Attach(realRoot);
  }

  /** `child` is the child of `parent` the scan selects: the first one
      whose main-file range contains the position. */
  ghost predicate FirstLocatedChild(parent: GenericAstNode, child: GenericAstNode, position: int, sm: SourceManager)
    reads parent, child, parent.children
  {
    var j := parent.FindChildIndex(child);
    j >= 0 && Located(child.payload, position, sm) &&
    forall i :: 0 <= i < j ==> !Located(parent.children[i].payload, position, sm)
  }

  /** The scan under `n` selects nothing. */
  ghost predicate NoLocatedChild(n: GenericAstNode, position: int, sm: SourceManager)
    reads n, n.children
  {
    forall i :: 0 <= i < |n.children| ==> !Located(n.children[i].payload, position, sm)
  }

  /** The child the scan selects under a valid node is its first located
      child, is valid itself, and owns strictly fewer nodes. */
  lemma SelectedChildStep(n: GenericAstNode, index: int, position: int, sm: SourceManager)
    requires n.Valid() && 0 <= index < |n.children|
    requires Located(n.children[index].payload, position, sm)
    requires forall i :: 0 <= i < index ==> !Located(n.children[i].payload, position, sm)
    ensures FirstLocatedChild(n, n.children[index], position, sm)
    ensures n.children[index].Valid() && n.children[index].Repr < n.Repr
  {
  }

  /** The scan on a valid node's children agrees with FirstMatch on its value:
      no located child means no match ... */
  lemma NoneLocatedValue(n: GenericAstNode, position: int, sm: SourceManager)
    requires n.Valid() && NoLocatedChild(n, position, sm)
    ensures FirstMatch(n.Model.children, position, sm).None?
  {
  }

  /** ... and the first located child is the value's first match. */
  lemma FirstLocatedValue(n: GenericAstNode, child: GenericAstNode, position: int, sm: SourceManager)
    requires n.Valid() && FirstLocatedChild(n, child, position, sm)
    ensures var j := n.FindChildIndex(child);
      FirstMatch(n.Model.children, position, sm) == Some(j) &&
      n.Model.children[j] == child.Model && child.Valid()
  {
  }

  /** A chain of selected children from a valid node is the path BestPath
      computes on that node's value. */
  lemma {:induction false} DescentModels(result: seq<GenericAstNode>, position: int, sm: SourceManager)
    requires |result| >= 1 && result[0].Valid()
    requires forall k :: 0 <= k < |result| - 1 ==> FirstLocatedChild(result[k], result[k + 1], position, sm)
    requires NoLocatedChild(result[|result| - 1], position, sm)
    ensures var path := BestPath(result[0].Model, position, sm);
      |result| == |path| && forall k :: 0 <= k < |result| ==> result[k].Model == path[k]
    decreases |result|
  {
    var n := result[0];
    if |result| == 1 {
      NoneLocatedValue(n, position, sm);
    } else {
      FirstLocatedValue(n, result[1], position, sm);
      var rest := result[1..];
      forall k | 0 <= k < |rest| - 1
        ensures FirstLocatedChild(rest[k], rest[k + 1], position, sm)
      {
        assert rest[k] == result[k + 1] && rest[k + 1] == result[k + 2];
      }
      DescentModels(rest, position, sm);
      var path := BestPath(n.Model, position, sm);
      assert path == [n.Model] + BestPath(rest[0].Model, position, sm);
    }
  }
}

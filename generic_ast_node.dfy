/** GenericAstNode: one node of the viewer's tree. A node owns its children
    (kept in order), points back to its parent, and carries a label and a
    payload. The ghost fields give the public view: `Repr` is the set of
    nodes of the subtree rooted here, `Model` its value as a `Tree`. */
module GenericAst {
  import opened ClangAst
  import opened AstTree

  /** The index of the first entry of `cs` identical to `node`, or -1. */
  function IndexOfNode(cs: seq<GenericAstNode>, node: GenericAstNode?): (r: int)
    ensures -1 <= r < |cs|
    ensures r == -1 <==> forall i :: 0 <= i < |cs| ==> cs[i] != node
    ensures r >= 0 ==> cs[r] == node && forall i :: 0 <= i < r ==> cs[i] != node
  {
    if cs == [] then -1
    else if cs[0] == node then 0
    else
      var k := IndexOfNode(cs[1..], node);
      if k == -1 then -1 else k + 1
  }

  class GenericAstNode {
    var parent: GenericAstNode?
    var children: seq<GenericAstNode>
    var name: string
    var payload: Payload

    ghost var Repr: set<GenericAstNode>
    ghost var Model: Tree

    /** The tree invariant: each child points back here, owns a part of the
        subtree disjoint from its siblings' parts, is itself valid, and
        `Model` mirrors the label, payload and children. */
    ghost predicate Valid()
      reads this, Repr
      ensures Valid() ==> this in Repr
      decreases Repr
    {
      this in Repr &&
      Model.name == name && Model.payload == payload && |Model.children| == |children| &&
      (forall i :: 0 <= i < |children| ==>
        children[i] in Repr && children[i].Repr <= Repr && this !in children[i].Repr &&
        children[i].parent == this && children[i].Model == Model.children[i] &&
        children[i].Valid()) &&
      (forall i, j :: 0 <= i < j < |children| ==> children[i].Repr !! children[j].Repr)
    }

    /** A fresh node: no parent, no children, empty label, null payload. */
    constructor ()
      ensures Valid() && Repr == {this}
      ensures parent == null && children == [] && name == "" && payload == NullPayload
      ensures Model == Tree("", NullPayload, [])
    {
      parent := null;
      children := [];
      name := "";
      payload := NullPayload;
      Repr := {this};
      Model := Tree("", NullPayload, []);
    }

    /** findChildIndex: the row of `node` among the children, by identity,
        or -1 when it is not a child. */
    function FindChildIndex(node: GenericAstNode?): (r: int)
      reads this
      ensures -1 <= r < |children|
      ensures r == -1 <==> forall i :: 0 <= i < |children| ==> children[i] != node
      ensures r >= 0 ==> children[r] == node && forall i :: 0 <= i < r ==> children[i] != node
    {
      IndexOfNode(children, node)
    }

    /** attach: take ownership of `child`, set its parent to this node and
        append it after the existing children. */
    method Attach(child: GenericAstNode)
      requires Valid() && child.Valid()
      requires Repr !! child.Repr
      modifies this`children, this`Repr, this`Model, child`parent
      ensures children == old(children) + [child]
      ensures child.parent == this
      ensures Repr == old(Repr) + child.Repr
      ensures Model == old(Model).(children := old(Model).children + [child.Model])
      ensures Valid() && ValidExceptLast()
    {
      child.parent := this;
      children := children + [child];
      Repr := Repr + child.Repr;
      Model := Model.(children := Model.children + [child.Model]);
    }

    /** The tree invariant for every child but the last, whose subtree the
        builder is still filling: the last child is only known to be in
        `Repr` and outside the other children's parts. The frame leaves out
        the last child, so filling it cannot disturb this predicate. */
    ghost predicate ValidExceptLast()
      requires |children| > 0
      reads this, Repr - {children[|children| - 1]}
    {
      var last := children[|children| - 1];
      this in Repr && this != last && last in Repr &&
      Model.name == name && Model.payload == payload && |Model.children| == |children| &&
      (forall i :: 0 <= i < |children| - 1 ==>
        children[i] in Repr && children[i] != last && last !in children[i].Repr &&
        children[i].Repr <= Repr && this !in children[i].Repr &&
        children[i].parent == this && children[i].Model == Model.children[i] &&
        children[i].Valid()) &&
      (forall i, j :: 0 <= i < j < |children| - 1 ==> children[i].Repr !! children[j].Repr)
    }

    /** Ghost bookkeeping for the tree builder, which attaches a child before
        filling it: once the last child's subtree is complete, take its nodes
        into `Repr` and its value into `Model`. */
    ghost method AbsorbLastChild()
      requires |children| > 0 && ValidExceptLast()
      requires children[|children| - 1].Valid() && children[|children| - 1].parent == this
      requires this !in children[|children| - 1].Repr
      requires forall o :: o in children[|children| - 1].Repr && o in Repr ==> o == children[|children| - 1]
      modifies this`Repr, this`Model
      ensures Valid()
      ensures Repr == old(Repr) + children[|children| - 1].Repr
      ensures Model == old(Model).(children := old(Model).children[..|children| - 1] + [children[|children| - 1].Model])
    {
      var last := children[|children| - 1];
      forall i | 0 <= i < |children| - 1
        ensures children[i].Repr !! last.Repr
      {
        forall o | o in children[i].Repr ensures o !in last.Repr {
          assert o in Repr;
        }
      }
      Repr := Repr + last.Repr;
      Model := Model.(children := Model.children[..|children| - 1] + [last.Model]);
    }

    /** getRangeInMainFile with its out-parameter: on success `result'` is the
        (start, end-of-token) offset pair; on failure it is `result` unchanged. */
    method GetRangeInMainFile(result: (int, int), manager: SourceManager)
      returns (found: bool, result': (int, int))
      ensures found <==> RangeInMainFile(payload, manager).Some?
      ensures found ==> result' == RangeInMainFile(payload, manager).value
      ensures !found ==> result' == result
    {
      var range := RangeOf(payload);
      if range.IsInvalid() {
        return false, result;
      }
      var start := manager.decomposedSpellingLoc(range.begin);
      var end := manager.decomposedSpellingLoc(manager.locForEndOfToken(range.end));
      if start.file != end.file || start.file != manager.mainFileId {
        // not in one file, or not in the main file (probably included)
        return false, result;
      }
      return true, (start.offset, end.offset);
    }
  }

  /** In a valid node, findChildIndex inverts indexing: the child at row i is
      found at row i. */
  lemma ChildIndexRoundTrip(n: GenericAstNode, i: int)
    requires n.Valid()
    requires 0 <= i < |n.children|
    ensures n.FindChildIndex(n.children[i]) == i
  {
  }
}

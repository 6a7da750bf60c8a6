/** AstDumpVisitor: the depth-first walk over the foreign tree that builds
    the viewer's tree. `myStack` holds the chain of current parents; every
    non-null Decl, Stmt or Type gets a node attached under the top of the
    stack, is pushed while its children are walked, and is popped again.

    Each Traverse* method is specified by `Built`: it appends `Built(c)` to
    the children of the current top, leaves the stack as it found it, and
    keeps the top's tree invariant. */
module AstDump {
  import opened ClangAst
  import opened AstTree
  import opened GenericAst

  class AstDumpVisitor {
    var myStack: seq<GenericAstNode>
    var myRootNode: GenericAstNode

    /** The stack starts with the root node alone. */
    constructor (rootNode: GenericAstNode)
      ensures myRootNode == rootNode && myStack == [rootNode]
    {
      myRootNode := rootNode;
      myStack := [rootNode];
    }

    /** myStack.back(). */
    function Top(): GenericAstNode
      reads this
      requires |myStack| > 0
    {
      myStack[|myStack| - 1]
    }

    /** The entry below the top: the parent of the node being built. */
    function Parent(): GenericAstNode
      reads this
      requires |myStack| > 1
    {
      myStack[|myStack| - 2]
    }

    /** getFunctionPrototype: writes the return type, the name and "(", then
        each parameter as type and name, separated by ", ", then ")". */
    method GetFunctionPrototype(f: DeclNaming) returns (s: string)
      requires f.Function?
      ensures s == Prototype(f.returnType, f.name, f.params)
    {
      var head := f.returnType + " " + f.name + "(";
      s := head;
      var first := true;
      var i := 0;
      while i < |f.params|
        invariant 0 <= i <= |f.params|
        invariant first <==> i == 0
        invariant s == head + JoinParams(f.params[..i])
      {
        if !first {
          s := s + ", ";
        }
        first := false;
        s := s + ParamText(f.params[i]);
        assert f.params[..i + 1][..i] == f.params[..i];
        i := i + 1;
      }
      assert f.params[..i] == f.params;
      s := s + ")";
    }

    /** The traversal entry point for a child of any kind. */
    method TraverseChild(c: Construct)
      requires |myStack| > 0 && Top().Valid()
      modifies this`myStack, Top()`children, Top()`Repr, Top()`Model
      ensures myStack == old(myStack)
      ensures Top().Valid() && fresh(Top().Repr - old(Top().Repr))
      ensures Top().Model == old(Top().Model).(children := old(Top().Model).children + Built(c))
      ensures |Top().children| >= |old(Top().children)|
      ensures Top().children[..|old(Top().children)|] == old(Top().children)
      decreases c, 4
    {
      match c.Kind()
      case DeclKind => TraverseDecl(c);
      case StmtKind => TraverseStmt(c);
      case TypeKind => TraverseType(c);
    }

    /** TraverseDecl: a null declaration adds nothing; otherwise a node
        labelled by DeclLabel is attached to the top, pushed, filled with the
        declaration's children, and popped. */
    method TraverseDecl(decl: Construct)
      requires decl.Kind() == DeclKind
      requires |myStack| > 0 && Top().Valid()
      modifies this`myStack, Top()`children, Top()`Repr, Top()`Model
      ensures myStack == old(myStack)
      ensures Top().Valid() && fresh(Top().Repr - old(Top().Repr))
      ensures Top().Model == old(Top().Model).(children := old(Top().Model).children + Built(decl))
      ensures |Top().children| >= |old(Top().children)|
      ensures Top().children[..|old(Top().children)|] == old(Top().children)
      decreases decl, 3
    {
      if decl.Null? {
        return;
      }
      var name := decl.declKindName + "Decl";
      match decl.naming {
        case Function(_, _, _) =>
          var proto := GetFunctionPrototype(decl.naming);
          name := name + " " + proto;
        case Named(n) =>
          name := name + " " + n;
        case Unnamed =>
      }
      AttachPushWalkPop(decl, DeclPtr(Some(decl)), name);
    }

    /** TraverseStmt: as TraverseDecl, with the statement's class name as
        label; a string literal's bytes are added by VisitStringLiteral once
        its node is on top of the stack, before its children are walked. */
    method TraverseStmt(stmt: Construct)
      requires stmt.Kind() == StmtKind
      requires |myStack| > 0 && Top().Valid()
      modifies this`myStack, Top()`children, Top()`Repr, Top()`Model
      ensures myStack == old(myStack)
      ensures Top().Valid() && fresh(Top().Repr - old(Top().Repr))
      ensures Top().Model == old(Top().Model).(children := old(Top().Model).children + Built(stmt))
      ensures |Top().children| >= |old(Top().children)|
      ensures Top().children[..|old(Top().children)|] == old(Top().children)
      decreases stmt, 3
    {
      if stmt.Null? {
        return;
      }
      AttachPushWalkPop(stmt, StmtPtr(Some(stmt)), stmt.stmtClassName);
    }

    /** TraverseType: as TraverseDecl, labelled by the type's class name; the
        node's payload stays null. */
    method TraverseType(t: Construct)
      requires t.Kind() == TypeKind
      requires |myStack| > 0 && Top().Valid()
      modifies this`myStack, Top()`children, Top()`Repr, Top()`Model
      ensures myStack == old(myStack)
      ensures Top().Valid() && fresh(Top().Repr - old(Top().Repr))
      ensures Top().Model == old(Top().Model).(children := old(Top().Model).children + Built(t))
      ensures |Top().children| >= |old(Top().children)|
      ensures Top().children[..|old(Top().children)|] == old(Top().children)
      decreases t, 3
    {
      if t.Null? {
        return;
      }
      AttachPushWalkPop(t, NullPayload, t.typeClassName);
    }

    /** What the three Traverse* methods share once the label is known: a
        new node with that payload and label is attached to the top, pushed,
        given to the visit hooks, filled with the construct's children, and
        popped. */
    method AttachPushWalkPop(c: Construct, payload: Payload, name: string)
      requires !c.Null?
      requires |myStack| > 0 && Top().Valid()
      requires name == (if c.Stmt? then c.stmtClassName else Label(c))
      requires payload == (match c
                           case Decl(_, _, _, _) => DeclPtr(Some(c))
                           case Stmt(_, _, _, _) => StmtPtr(Some(c))
                           case _ => NullPayload)
      modifies this`myStack, Top()`children, Top()`Repr, Top()`Model
      ensures myStack == old(myStack)
      ensures Top().Valid() && fresh(Top().Repr - old(Top().Repr))
      ensures Top().Model == old(Top().Model).(children := old(Top().Model).children + Built(c))
      ensures |Top().children| >= |old(Top().children)|
      ensures Top().children[..|old(Top().children)|] == old(Top().children)
      decreases c, 2
    {
      var top := Top();
      ghost var before := top.Repr;
      var node := AttachAndPush(payload, name);
      ghost var attached := top.Repr;
      ghost var attachedModel := top.Model;
      WalkTop(c);
      ghost var grown := node.Repr - {node};
      assert top.Repr == attached && top.Model == attachedModel;
      assert Parent() == top && Top() == node;
      PopAndAbsorb();
      assert Top() == top && myStack == old(myStack);
      assert top.Repr == before + {node} + grown;
      assert attachedModel.children[..|attachedModel.children| - 1] == old(top.Model).children;
    }

    /** The part of a Traverse* call while the new node is on top: the
        Visit* hooks for the construct, then its children. The node ends up
        with the construct's label, and with the construct's children built
        below it. */
    method WalkTop(c: Construct)
      requires !c.Null? && |myStack| > 0 && Top().Valid()
      requires Top().children == [] && Top().Repr == {Top()}
      requires Top().name == (if c.Stmt? then c.stmtClassName else Label(c))
      requires Top().Model == Tree(Top().name, Top().payload, [])
      modifies this`myStack, Top()`children, Top()`Repr, Top()`Model, Top()`name
      ensures myStack == old(myStack)
      ensures Top().Valid() && fresh(Top().Repr - {Top()})
      ensures Top().Model == Tree(Label(c), old(Top().payload), BuiltForest(c.Children()))
      decreases c, 1
    {
      // the Visit* hooks run before the children
      if c.Stmt? && c.stringBytes.Some? {
        VisitStringLiteral(c.stringBytes.value);
      }
      TraverseChildren(c);
    }

    /** The first half of a Traverse* call: a new node with the given payload
        and label is attached as the top's last child and pushed. */
    method AttachAndPush(payload: Payload, name: string) returns (node: GenericAstNode)
      requires |myStack| > 0 && Top().Valid()
      modifies this`myStack, Top()`children, Top()`Repr, Top()`Model
      ensures fresh(node) && myStack == old(myStack) + [node]
      ensures node.Valid() && node.Repr == {node} && node.children == []
      ensures node.Model == Tree(name, payload, []) && node.name == name && node.payload == payload
      ensures var top := old(Top());
        node.parent == top && top.children == old(top.children) + [node] &&
        top.Repr == old(top.Repr) + {node} &&
        top.Model == old(top.Model).(children := old(top.Model).children + [node.Model]) &&
        top.ValidExceptLast()
    {
      node := new GenericAstNode();
      node.payload := payload;
      node.name := name;
      node.Model := Tree(name, payload, []);
      var top := Top();
      top.Attach(node);
      myStack := myStack + [node];
    }

    /** The second half: the node on top is complete; it is popped and its
        subtree taken into its parent's ghost view. */
    method PopAndAbsorb()
      requires |myStack| > 1
      requires var parent, node := Parent(), Top();
        |parent.children| > 0 && parent.children[|parent.children| - 1] == node &&
        parent.ValidExceptLast() && node.Valid() && node.parent == parent &&
        parent !in node.Repr && forall o :: o in node.Repr && o in parent.Repr ==> o == node
      modifies this`myStack, Parent()`Repr, Parent()`Model
      ensures myStack == old(myStack[..|myStack| - 1])
      ensures var parent, node := Top(), old(Top());
        parent.Valid() && parent.Repr == old(parent.Repr) + node.Repr &&
        parent.Model == old(parent.Model).(children := old(parent.Model).children[..|parent.children| - 1] + [node.Model])
    {
      myStack := myStack[..|myStack| - 1];
      Top().AbsorbLastChild();
    }

    /** VisitStringLiteral: append a space and the literal's bytes to the
        label of the node on top of the stack. */
    method VisitStringLiteral(bytes: string)
      requires |myStack| > 0 && Top().Valid()
      modifies Top()`name, Top()`Model
      ensures Top().name == old(Top().name) + " " + bytes
      ensures Top().Model == old(Top().Model).(name := Top().name)
      ensures Top().Valid()
    {
      var top := Top();
      top.name := top.name + " " + bytes;
      top.Model := top.Model.(name := top.name);
    }

    /** The default traversal of RecursiveASTVisitor: each child in order,
        through the entry point for its kind. */
    method TraverseChildren(c: Construct)
      requires |myStack| > 0 && Top().Valid()
      modifies this`myStack, Top()`children, Top()`Repr, Top()`Model
      ensures myStack == old(myStack)
      ensures Top().Valid() && fresh(Top().Repr - old(Top().Repr))
      ensures Top().Model == old(Top().Model).(children := old(Top().Model).children + BuiltForest(c.Children()))
      ensures |Top().children| >= |old(Top().children)|
      ensures Top().children[..|old(Top().children)|] == old(Top().children)
      decreases c, 0
    {
      var cs := c.Children();
      var i := 0;
      while i < |cs|
        invariant 0 <= i <= |cs|
        invariant myStack == old(myStack)
        invariant Top().Valid() && fresh(Top().Repr - old(Top().Repr))
        invariant Top().Model == old(Top().Model).(children := old(Top().Model).children + BuiltForest(cs[..i]))
        invariant |Top().children| >= |old(Top().children)|
        invariant Top().children[..|old(Top().children)|] == old(Top().children)
      {
        TraverseChild(cs[i]);
        assert cs[..i + 1][..i] == cs[..i];
        i := i + 1;
      }
      assert cs[..i] == cs;
    }
  }
}

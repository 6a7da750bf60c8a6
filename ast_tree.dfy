/** Values of the viewer's homogeneous tree: a node's payload, the range
    computations on it, the label rules of the tree builder, and `Built`,
    the tree the builder produces for a foreign construct. */
module AstTree {
  import opened ClangAst

  /** GenericAstNode::myAstNode, a variant over `Decl*` and `Stmt*`. Either
      alternative may be null. */
  datatype Payload = DeclPtr(decl: Option<Construct>) | StmtPtr(stmt: Option<Construct>)

  /** A default-constructed variant holds its first alternative. The model
      assumes that alternative is `Decl*`, so the default payload is a null
      `Decl*`; artificial nodes and type nodes keep it. */
  const NullPayload := DeclPtr(None)

  /** The value of a node: its label, payload and children in order. */
  datatype Tree = Tree(name: string, payload: Payload, children: seq<Tree>)

  /** GenericAstNode::getRange (SourceRangeVisitor): a null `Decl*` or `Stmt*` gives an
      invalid range, otherwise the construct's own range. */
  function RangeOf(p: Payload): (r: SourceRange)
    ensures p.DeclPtr? && p.decl.None? ==> r.IsInvalid()
    ensures p.StmtPtr? && p.stmt.None? ==> r.IsInvalid()
  {
    match p
    case DeclPtr(None) => EmptyRange
    case StmtPtr(None) => EmptyRange
    case DeclPtr(Some(c)) => c.SourceRangeOf()
    case StmtPtr(Some(c)) => c.SourceRangeOf()
  }

  /** GenericAstNode::getRangeInMainFile: the (start offset, end-of-token
      offset) pair of a node lying in one file, the main one; None when
      the range is invalid, spans two files, or lies outside the main file. */
  function RangeInMainFile(p: Payload, sm: SourceManager): (r: Option<(int, int)>)
    ensures RangeOf(p).IsInvalid() ==> r.None?
    ensures !RangeOf(p).IsInvalid() ==>
      var start := sm.decomposedSpellingLoc(RangeOf(p).begin);
      var end := sm.decomposedSpellingLoc(sm.locForEndOfToken(RangeOf(p).end));
      (r.Some? <==> start.file == end.file == sm.mainFileId) &&
      (r.Some? ==> r.value == (start.offset, end.offset))
  {
    var range := RangeOf(p);
    if range.IsInvalid() then None
    else
      var start := sm.decomposedSpellingLoc(range.begin);
      var end := sm.decomposedSpellingLoc(sm.locForEndOfToken(range.end));
      if start.file != end.file || start.file != sm.mainFileId then None
      else Some((start.offset, end.offset))
  }

  /** The test findPosInChildren applies to a candidate: its main-file range
      exists and contains the position, both ends included. */
  predicate Located(p: Payload, position: int, sm: SourceManager) {
    var r := RangeInMainFile(p, sm);
    r.Some? && r.value.0 <= position <= r.value.1
  }

  /** GenericAstNode::getColor: 0 for the Decl alternative, 1 for Stmt. */
  function Color(p: Payload): (r: int)
    ensures r == 0 || r == 1
    ensures r == 1 <==> p.StmtPtr?
  {
    match p
    case DeclPtr(_) => 0
    case StmtPtr(_) => 1
  }

  // ---------------------------------------------------------------------
  // Labels

  /** One parameter in a prototype: type, a space, the name. */
  function ParamText(p: Param): string {
    p.typeName + " " + p.name
  }

  /** The parameters' texts separated by ", ", as the prototype loop writes them. */
  function JoinParams(ps: seq<Param>): string {
    if ps == [] then ""
    else if |ps| == 1 then ParamText(ps[0])
    else JoinParams(ps[..|ps| - 1]) + ", " + ParamText(ps[|ps| - 1])
  }

  /** getFunctionPrototype: return type, name, and the parameter list in parentheses. */
  function Prototype(returnType: string, name: string, ps: seq<Param>): string {
    returnType + " " + name + "(" + JoinParams(ps) + ")"
  }

  /** Joining two parameter lists joins their texts with one more separator
      between them when both are non-empty. */
  lemma {:induction false} JoinParamsAppend(a: seq<Param>, b: seq<Param>)
    ensures JoinParams(a + b) ==
      JoinParams(a) + (if a != [] && b != [] then ", " else "") + JoinParams(b)
    decreases |b|
  {
    if b == [] {
      assert a + b == a;
    } else if a == [] {
      assert a + b == b;
    } else if |b| == 1 {
      assert (a + b)[..|a + b| - 1] == a;
    } else {
      var b' := b[..|b| - 1];
      assert (a + b)[..|a + b| - 1] == a + b';
      JoinParamsAppend(a, b');
    }
  }

  /** The label TraverseDecl gives a declaration: kind name and "Decl", then
      the prototype of a function or the name of another named declaration. */
  function DeclLabel(c: Construct): string
    requires c.Decl?
  {
    c.declKindName + "Decl" +
      match c.naming
      case Function(ret, n, ps) => " " + Prototype(ret, n, ps)
      case Named(n) => " " + n
      case Unnamed => ""
  }

  /** The label of a statement: its class name, followed for a string literal
      by a space and the literal's bytes (VisitStringLiteral). */
  function StmtLabel(c: Construct): string
    requires c.Stmt?
  {
    match c.stringBytes
    case Some(bytes) => c.stmtClassName + " " + bytes
    case None => c.stmtClassName
  }

  /** The label of any non-null construct; a type's is its class name. */
  function Label(c: Construct): string
    requires !c.Null?
  {
    match c
    case Decl(_, _, _, _) => DeclLabel(c)
    case Stmt(_, _, _, _) => StmtLabel(c)
    case Type(n, _) => n
  }

  // ---------------------------------------------------------------------
  // What the tree builder produces

  /** The nodes one Traverse* call appends under the current parent: none for
      a null construct, otherwise one node with the construct's label and
      payload whose children are built from the construct's children. */
  function Built(c: Construct): seq<Tree>
    decreases c
  {
    match c
    case Null(_) => []
    case Decl(_, _, _, cs) => [Tree(Label(c), DeclPtr(Some(c)), BuiltForest(cs))]
    case Stmt(_, _, _, cs) => [Tree(Label(c), StmtPtr(Some(c)), BuiltForest(cs))]
    case Type(_, cs) => [Tree(Label(c), NullPayload, BuiltForest(cs))]
  }

  /** The nodes a sequence of sibling constructs yields, in visiting order. */
  function BuiltForest(cs: seq<Construct>): seq<Tree>
    decreases cs
  {
    if cs == [] then [] else BuiltForest(cs[..|cs| - 1]) + Built(cs[|cs| - 1])
  }

  /** Every non-null construct becomes exactly one node whose colour follows
      the Decl/Stmt alternative; type nodes fall into the Decl colour. */
  lemma BuiltNodeColor(c: Construct)
    requires !c.Null?
    ensures |Built(c)| == 1
    ensures Color(Built(c)[0].payload) == if c.Stmt? then 1 else 0
    ensures c.Type? ==> Built(c)[0].payload == NullPayload
  {
  }

  /** Labels of a tree in pre-order. */
  function Flatten(t: Tree): seq<string>
    decreases t
  {
    [t.name] + FlattenForest(t.children)
  }

  function FlattenForest(ts: seq<Tree>): seq<string>
    decreases ts
  {
    if ts == [] then [] else FlattenForest(ts[..|ts| - 1]) + Flatten(ts[|ts| - 1])
  }

  /** Labels of the non-null constructs of a foreign tree in the order a
      depth-first, pre-order walk discovers them; null ones are skipped. */
  function Discovered(c: Construct): seq<string>
    decreases c
  {
    if c.Null? then [] else [Label(c)] + DiscoveredForest(c.Children())
  }

  function DiscoveredForest(cs: seq<Construct>): seq<string>
    decreases cs
  {
    if cs == [] then [] else DiscoveredForest(cs[..|cs| - 1]) + Discovered(cs[|cs| - 1])
  }

  /** The built tree lists the constructs in discovery order: one node per
      non-null construct, nothing for a null one, no re-sorting. */
  lemma {:induction false} BuiltIsPreorder(c: Construct)
    ensures FlattenForest(Built(c)) == Discovered(c)
    decreases c, 1
  {
    if !c.Null? {
      var t := Built(c)[0];
      assert [t][..0] == [];
      assert FlattenForest(Built(c)) == Flatten(t);
      BuiltForestIsPreorder(c.Children());
    }
  }

  lemma {:induction false} BuiltForestIsPreorder(cs: seq<Construct>)
    ensures FlattenForest(BuiltForest(cs)) == DiscoveredForest(cs)
    decreases cs, 0
  {
    if cs != [] {
      var init, last := cs[..|cs| - 1], cs[|cs| - 1];
      BuiltForestIsPreorder(init);
      BuiltIsPreorder(last);
      FlattenForestAppend(BuiltForest(init), Built(last));
    }
  }

  lemma {:induction false} FlattenForestAppend(a: seq<Tree>, b: seq<Tree>)
    ensures FlattenForest(a + b) == FlattenForest(a) + FlattenForest(b)
    decreases |b|
  {
    if b == [] {
      assert a + b == a;
    } else {
      var b', last := b[..|b| - 1], b[|b| - 1];
      assert (a + b)[..|a + b| - 1] == a + b';
      assert (a + b)[|a + b| - 1] == last;
      FlattenForestAppend(a, b');
      calc {
        FlattenForest(a + b);
        FlattenForest(a + b') + Flatten(last);
        FlattenForest(a) + FlattenForest(b') + Flatten(last);
        FlattenForest(a) + (FlattenForest(b') + Flatten(last));
      }
    }
  }
}

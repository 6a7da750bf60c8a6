/** The parts of Clang the viewer consumes, reduced to values and oracles.
    The front end (parsing, semantic analysis, RecursiveASTVisitor's choice
    of children, the source manager and the lexer) is not modelled: a parsed
    translation unit is a `Construct` tree handed in from outside, and the
    location services are total functions inside a `SourceManager` value. */
module ClangAst {

  datatype Option<T> = None | Some(value: T)

  /** A raw source location. As in Clang, location 0 is the invalid one. */
  type SourceLocation = nat

  const InvalidLocation: SourceLocation := 0

  /** A begin/end pair of token locations (the end names the last token's start). */
  datatype SourceRange = SourceRange(begin: SourceLocation, end: SourceLocation) {
    /** Clang calls a range valid only when both ends are valid. */
    predicate IsInvalid() {
      begin == InvalidLocation || end == InvalidLocation
    }
  }

  /** The range of a null construct: both ends invalid. */
  const EmptyRange := SourceRange(InvalidLocation, InvalidLocation)

  /** A spelling location split into (file id, byte offset in that file). */
  datatype DecomposedLoc = DecomposedLoc(file: nat, offset: nat)

  /** The location services of one parse, as oracles:
      `decomposedSpellingLoc` stands for SourceManager::getDecomposedSpellingLoc,
      `locForEndOfToken` for Lexer::getLocForEndOfToken under the parse's
      language options, and `mainFileId` for SourceManager::getMainFileID. */
  datatype SourceManager = SourceManager(
    mainFileId: nat,
    decomposedSpellingLoc: SourceLocation -> DecomposedLoc,
    locForEndOfToken: SourceLocation -> SourceLocation)

  /** A function parameter: its printed type (QualType::getAsString) and its name. */
  datatype Param = Param(typeName: string, name: string)

  /** How a declaration answers the casts in the tree builder: a FunctionDecl
      (checked first), some other NamedDecl, or neither. */
  datatype DeclNaming =
    | Unnamed
    | Named(name: string)
    | Function(returnType: string, name: string, params: seq<Param>)

  /** Which traversal entry point a child is handed to. */
  datatype Kind = DeclKind | StmtKind | TypeKind

  /** A node of the foreign tree, with its children in the order the
      traversal visits them. `Null` is a null Decl*, a null Stmt* or a null
      QualType met during the traversal. A Stmt whose `stringBytes` is
      present is a StringLiteral. */
  datatype Construct =
    | Null(kind: Kind)
    | Decl(declKindName: string, naming: DeclNaming, range: SourceRange, children: seq<Construct>)
    | Stmt(stmtClassName: string, stringBytes: Option<string>, range: SourceRange, children: seq<Construct>)
    | Type(typeClassName: string, children: seq<Construct>)
  {
    function Kind(): Kind {
      match this
      case Null(k) => k
      case Decl(_, _, _, _) => DeclKind
      case Stmt(_, _, _, _) => StmtKind
      case Type(_, _) => TypeKind
    }

    function Children(): seq<Construct> {
      if Null? then [] else children
    }

    /** getSourceRange() of a declaration or statement; types have none. */
    function SourceRangeOf(): SourceRange {
      if Decl? || Stmt? then range else EmptyRange
    }
  }

  /** What the front end returns for one source buffer: the translation
      unit declaration and the location services of that parse. */
  datatype ParsedAst = ParsedAst(translationUnit: Construct, manager: SourceManager)
}

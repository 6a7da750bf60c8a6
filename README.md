# Clang AST viewer core, modelled in Dafny

This project models the core of the Clang AST viewer, `AstReader.cpp`. That core does two things:

- **Building the tree.** `AstDumpVisitor` walks Clang's AST depth-first. It turns every non-null declaration, statement and type into a `GenericAstNode`. Each node gets a label and the original `Decl*` or `Stmt*` as payload. The node is attached to the top of a stack of current parents, pushed, filled with its own children, and popped. `readAst` puts the result under an artificial root, below a node labelled `"AST"`.
- **Looking up a position.** Given a byte offset in the main file, `getBestNodeMatchingPosition` returns the path from the real root down the tree. Below the translation unit, each step takes the first child whose main-file range contains the offset. `findPosInChildren` performs that step, and `getRangeInMainFile` gives the range it uses.

Files:

- **`clang_ast.dfy`:** the parts of Clang the core consumes, as values and oracles. A construct tree stands for the AST the front end returns. A `SourceManager` value holds total functions for spelling-location decomposition and end-of-token lookup.
- **`ast_tree.dfy`:** the node payload and the range computations on it (`getRange`, `getRangeInMainFile`, `getColor`). It also holds the label rules and `Built`, the tree the builder must produce for a construct. The pre-order lemmas are here too.
- **`generic_ast_node.dfy`:** the `GenericAstNode` class. Its fields are parent, children, label and payload. Ghost `Repr` and `Model` hold the subtree's footprint and value.
- **`ast_dump_visitor.dfy`:** the `AstDumpVisitor` class with `myStack`. Its `Traverse*` methods are proved against `Built`.
- **`position_index.dfy`:** the lookup on tree values. `FirstMatch` is one scan and `BestPath` the whole descent. Lemmas state the chain law of the descent and show that it is unique.
- **`ast_reader.dfy`:** the `AstReader` class: `getRealRoot`, `findPosInChildren`, `getBestNodeMatchingPosition` and `readAst`. It also has lemmas that tie the node-level lookup to `BestPath` on the nodes' values.

The builder attaches a node to its parent before filling it, as the source does. The parent's ghost footprint and value are brought up to date after the pop.

The payload is a variant over `Decl*` and `Stmt*`. A default-constructed variant holds its first alternative, and the model assumes that alternative is `Decl*` (the declaration of the variant is not part of this model). Under that assumption, type nodes, the artificial root and the `"AST"` node all have a null `Decl*` payload: they have no range and have colour 0.

## Model

| member | source | states |
|---|---|---|
| GenericAst.IndexOfNode | AstReader.cpp:25-31 | The result is -1 exactly when no entry is the given node. Otherwise it is an index holding the node with no earlier such index. |
| GenericAst.GenericAstNode.FindChildIndex | AstReader.cpp:25-31 | findChildIndex gives the row of the first child identical to the node, or -1 when no child is identical. |
| GenericAst.ChildIndexRoundTrip | AstReader.cpp:25-31 | In a valid node, findChildIndex(children[i]) == i for every row i. |
| GenericAst.GenericAstNode.constructor | AstReader.cpp:19-23 | A new node has a null parent, no children, an empty label and a null payload, and is a valid one-node tree. |
| GenericAst.GenericAstNode.Attach | AstReader.cpp:33-37 | attach appends the child as the last child and leaves the earlier children in place. It sets the child's parent link, adds the child's subtree to the footprint and value, and keeps the tree invariant. |
| AstTree.RangeOf | AstReader.cpp:39-53 | getRange of a null `Decl*` or `Stmt*` is an invalid range. |
| AstTree.RangeInMainFile | AstReader.cpp:55-71 | There is no main-file range when the range is invalid. Otherwise there is one exactly when begin and end-of-token decompose to the same file and that file is the main file. It is then the (begin offset, end-of-token offset) pair. |
| GenericAst.GenericAstNode.GetRangeInMainFile | AstReader.cpp:55-71 | Returns true exactly when the main-file range exists, and then the out-parameter holds it. On false, the out-parameter is the value passed in, unchanged. |
| AstTree.Color | AstReader.cpp:74-89 | getColor is 0 or 1, and 1 exactly for the Stmt alternative. |
| AstTree.BuiltNodeColor | AstReader.cpp:74-89 | Each non-null construct yields one node. Its colour is 1 for a statement and 0 otherwise; a type node carries the default payload, taken to be a null `Decl*`. |
| AstDump.AstDumpVisitor.constructor | AstReader.cpp:95-99 | The stack starts as the root node alone. |
| AstDump.AstDumpVisitor.GetFunctionPrototype | AstReader.cpp:110-126 | The loop with the `first` flag writes exactly `Prototype`: return type, space, name, "(", the parameters joined by ", ", ")". |
| AstTree.JoinParamsAppend | AstReader.cpp:114-123 | Joining two parameter lists equals joining each list and putting one ", " between them when both are non-empty. |
| AstDump.AstDumpVisitor.TraverseDecl | AstReader.cpp:129-152 | A null declaration adds nothing. Otherwise exactly `Built(decl)` is appended under the stack top: one node with kind+"Decl", then " "+prototype or " "+name, and its children. The stack ends as it was, the top stays a valid tree and its earlier children are unchanged. |
| AstDump.AstDumpVisitor.TraverseStmt | AstReader.cpp:154-169 | As TraverseDecl: the statement's class name as label and the `Stmt*` as payload. |
| AstDump.AstDumpVisitor.VisitStringLiteral | AstReader.cpp:171-175 | Appends " " and the literal's bytes to the label of the node on top of the stack and keeps that node valid. |
| AstDump.AstDumpVisitor.TraverseType | AstReader.cpp:177-192 | As TraverseDecl: the type's class name as label and a null payload. |
| AstDump.AstDumpVisitor.AttachPushWalkPop | AstReader.cpp:135-151 | The steps shared by the three Traverse* methods: make a node, attach it, push it, walk, pop. Together they append `Built(c)` under the top and leave the stack unchanged. |
| AstDump.AstDumpVisitor.AttachAndPush | AstReader.cpp:146-148 | The new node becomes the top's last child, its parent is the top, and it is pushed. |
| AstDump.AstDumpVisitor.WalkTop | AstReader.cpp:149 | While the new node is on top, the visit hook and then the children give it its final label and `BuiltForest` of the construct's children. |
| AstDump.AstDumpVisitor.TraverseChildren | AstReader.cpp:149 | The default traversal visits the children in order and appends `BuiltForest` of them under the top, with the stack balanced. |
| AstDump.AstDumpVisitor.TraverseChild | AstReader.cpp:149 | A child goes to the entry point for its kind. |
| AstDump.AstDumpVisitor.PopAndAbsorb | AstReader.cpp:150 | pop_back removes the finished node, and its parent's footprint and value take in its subtree. |
| AstTree.BuiltIsPreorder | AstReader.cpp:129-192 | The labels of the built nodes, read in pre-order, are those of the non-null constructs in depth-first discovery order. Null constructs add nothing, and nothing is re-sorted. |
| AstTree.BuiltForestIsPreorder | AstReader.cpp:129-192 | The same for a sequence of sibling constructs. |
| Reader.AstReader.GetRealRoot | AstReader.cpp:209-212 | The real root is the artificial root's child, labelled "AST", a valid tree whose parent is the artificial root. |
| Reader.AstReader.FindPosInChildren | AstReader.cpp:214-229 | Returns null exactly when no candidate's main-file range contains the position, both ends included. Otherwise it returns the earliest candidate whose range contains it. Candidates without a range are skipped. |
| PositionIndex.FirstMatch | AstReader.cpp:214-229 | The same first-match scan on tree values: None exactly when no tree is located, otherwise the first located index. |
| Reader.AstReader.GetBestNodeMatchingPosition | AstReader.cpp:231-248 | The path has length at least 2 and starts with the real root and its child 0. Each later node is the first child of its predecessor, by findChildIndex, whose range contains the position. No child of the last node contains it. The values below the real root are exactly `BestPath` of the translation unit. |
| Reader.AstReader.Descend | AstReader.cpp:238-247 | The loop from the translation unit down: each step moves to the first located child. It stops when no child is located. |
| Reader.DescentModels | AstReader.cpp:238-247 | A chain of first located children from a valid node has, as values, exactly the path `BestPath` computes. |
| Reader.SelectedChildStep | AstReader.cpp:240-246 | The child the scan selects is the first located child. It is valid and owns strictly fewer nodes, so the loop terminates. |
| Reader.NoneLocatedValue | AstReader.cpp:240-244 | When no child of a valid node is located, the scan on its value finds nothing either. |
| Reader.FirstLocatedValue | AstReader.cpp:240-246 | The first located child of a valid node is the value-level first match, at the same row. |
| PositionIndex.BestPathChain | AstReader.cpp:231-248 | `BestPath` starts at its tree. Every later element is the child its predecessor's scan selects and contains the position. The scan under the last element selects nothing. |
| PositionIndex.DescentIsBestPath | AstReader.cpp:238-247 | Any path obeying that chain law is the one `BestPath` computes, so the descent is unique. |
| PositionIndex.BestPathDepth | AstReader.cpp:238-247 | The descent is no longer than the tree is deep. |
| PositionIndex.NestingNotImplied | AstReader.cpp:214-229 | A concrete tree where the selected child's range reaches beyond its parent's range: the lookup does not make ranges nest. |
| Reader.AstReader.ReadAst | AstReader.cpp:250-270 | After readAst the reader is valid and stores the source and the parse. Its tree is artificial root → "AST" → `Built` of the translation unit, made of new nodes only. |
| Reader.BuildTree | AstReader.cpp:252-268 | The tree readAst builds: one "AST" child under the artificial root, holding `Built` of the translation unit. |
| Reader.NewSkeleton | AstReader.cpp:252-256 | The artificial root with a fresh "AST" node attached as its only child, ready to be filled. |

## Left out

- The Clang front end is not modelled: `buildASTFromCodeWithArgs`, RecursiveASTVisitor's choice of children, `getDecomposedSpellingLoc`, `getLocForEndOfToken` and the language options. A parsed translation unit is a `Construct` value passed in. The location services are functions inside a `SourceManager` value.
- `getTypeName` and the `PrintingPolicy` settings are not modelled: printed types, declaration kind names, class names and identifiers are opaque strings.
- `splitCommandLine` is not part of this model, because its source is not available. `ReadAst` takes the front end's result directly, and `options` is not interpreted.
- `dumpColor` and the console logging in `readAst` are not modelled; they are output only.
- The property map, name mangling and literal values are not modelled: no code filling them is part of this model.
- Ownership through `unique_ptr` is not modelled. A node's children are plain references, the parent link is a non-owning reference, and the ghost `Repr` stands in for ownership.
- The `bool` result of the `Traverse*` methods is not modelled. The overrides only pass on the base traversal's result, and the modelled traversal never aborts.
- `StringLiteralExtractor.h` and `MainWindow.cpp` are not modelled. `MainWindow.cpp` consumes `findChildIndex` and the path property, which `GetBestNodeMatchingPosition` states.
- `getManager` and `getContext` are not modelled separately; they are the `manager` field of the parse.
- AstTree.BuiltNodeColor: assumes `Decl*` is the first alternative of the node's payload variant, so that a default payload is a null `Decl*` with colour 0. The variant's declaration is in `AstReader.h`, which is not part of this model; with `Stmt*` first, type nodes, the artificial root and the `"AST"` node would have colour 1 instead.
- Reader.AstReader.GetBestNodeMatchingPosition: does not promise that ranges nest along the returned path. The lookup checks only that each selected child contains the offset, not that its range lies inside its parent's. `PositionIndex.NestingNotImplied` gives a parent covering offsets 5 to 6 whose selected child covers offsets 1 to 10. The model follows the code here.
- GenericAst.GenericAstNode.GetRangeInMainFile: offsets are unbounded naturals. The source stores unsigned file offsets into an `int` pair, so offsets of 2^31 and above would wrap. That is not modelled.
- Reader.AstReader.GetBestNodeMatchingPosition: the loop lives in the separate method `Descend`. The path values are tied to `BestPath` by the lemma `DescentModels` rather than inside the loop.

# PL/0 compiler core: symbol table, semantic passes and code generator

This project models the middle and back end of the PL/0 compiler `pl0_antlr`. It covers:

- the block-structured **symbol table**: a tree of scopes, each with symbols, a nesting level, a frame-offset cursor and a next-child traversal cursor;
- the **declaration pass**, which fills the table;
- the **semantic checker**, which walks the table a second time and counts misuses of names;
- the **code generator**, which walks it a third time and emits x86-64 stack-machine code.

## Structure

- `Symbols` (symbol.dfy): the `Symbol` class and its `toString` rendering.
  - The table stores a `SymbolEntry` value, a snapshot of the finished symbol.
- `ScopeTree` (scope_tree.dfy): the table as a value.
  - Scopes live in an arena `seq<Scope>` indexed by scope id, with a `current` index.
  - Each operation is a pure function with its contract: `EnterNew`, `EnterNextChild`, `Exit`, `ResetCursors`, `Declare`, `Resolve` and `LocalsSize`.
  - It also holds the structural lemmas: innermost-first lookup, resolution by nesting level, and traversals after a reset.
- `SymbolTables` (symbol_table.dfy): the `SymbolTable` class.
  - Its fields are updated in place.
  - Every method ensures `State() == F(old(State()))` for the matching `ScopeTree` function.
  - `Lookup` walks the parent chain in a loop; `ResetIterators` recurses over the children.
- `Wrappers`, `Ast`: `Option`, and the typed tree of a PL/0 program.
- `Declarations` (declarations.dfy): the declaration pass.
  - `DeclareBlock` is the pure specification.
  - `SymbolTableBuilder` is the listener as a class whose recursive methods follow the listener's pre-order walk.
  - The lemmas state what the pass leaves in the table.
  - The predicate `Shaped` says the scope tree mirrors the program's procedure nesting.
- `Traversal`: the names visible from a scope, and the invariants of re-entering a shaped tree after a reset.
- `Checking` (checker.dfy): the semantic checker.
  - There are two counting definitions:
    - `CheckBlock` is the cursor-driven walk the listener performs.
    - `RefErrors` is a cursor-free reference that pairs the i-th procedure with the i-th child scope.
  - They are proved equal.
  - The error count is also proved equal to the number of bad uses in a flat list of the uses of names.
- `Machine`: the instruction datatype, its text rendering, and an abstract machine.
  - The machine has unbounded integers, an operand stack and a frame memory.
  - It runs the code of expressions, conditions and the static-link walk.
- `CodeGen`: the pure code-generation functions (`GenExpr`, `GenCond`, `GenStmt`), plus:
  - their meaning on the machine (`ExprComputes`, `CondComputes`);
  - when they succeed (`StmtSomeIff`);
  - the label discipline (`StmtLabels`).
- `Generator`: code for blocks, procedures and the whole program (`GenBlock`, `GenProgram`), and the end-to-end specification `Compile`.
- `CodeGenerators` (code_generator.dfy): the `CodeGenerator` class.
  - It has `asm` and `labelCounter` fields.
  - Every `visit` overload is a method proved to append exactly the code of the matching specification function and to advance the counter as that function does.
  - The driver `RunCompiler` chains the three passes the way the pipeline in `App.java` does.
- Proof helpers: some lemmas only unfold a definition one step, or re-associate emitted code, for use inside other proofs.
  - Examples: `IfGen`, `WhileGen`, `BlockGen`, `ProcGen`, `IfAsm`, `WhileAsm`, `StmtsStep`, `ReadStep`, `WriteStep`, `RelationalGen`, `BinaryGen`, `ProgramGen`, `ProcsStep` (code_generator.dfy); `CheckProcsStep` (checker.dfy); `ProcStep`, `ChildrenStep`, `ChildScopesUnfold` (declarations.dfy).
  - They state no property of the compiler of their own and have no row in the table below.

## Model

| member | source | states |
|---|---|---|
| Symbols.Symbol.constructor | app/src/main/java/it/unisannio/studenti/symbolTable/Symbol.java:13-16 | The two-argument constructor keeps the name and kind, leaves the value absent, and starts nesting level and offset at 0. |
| Symbols.Symbol.WithValue | app/src/main/java/it/unisannio/studenti/symbolTable/Symbol.java:18-22 | The three-argument constructor stores the given (possibly absent) value. Nesting level and offset start at 0. |
| Symbols.Symbol.SetNestingLevel | app/src/main/java/it/unisannio/studenti/symbolTable/Symbol.java:24-26 | Sets the nesting level and leaves the offset unchanged. |
| Symbols.Symbol.SetOffset | app/src/main/java/it/unisannio/studenti/symbolTable/Symbol.java:32-34 | Sets the offset and leaves the nesting level unchanged. |
| Symbols.Symbol.Snapshot | app/src/main/java/it/unisannio/studenti/symbolTable/Symbol.java:4-11 | The stored entry carries exactly the symbol's name, kind, value, nesting level and offset. |
| Symbols.NoEqualsInNumber | app/src/main/java/it/unisannio/studenti/symbolTable/Symbol.java:54 | The decimal text of a value never contains `=`. |
| Symbols.DescribeMentionsValue | app/src/main/java/it/unisannio/studenti/symbolTable/Symbol.java:52-58 | For a name without `=`, the description contains `value=` if and only if the symbol has a value. |
| ScopeTree.NewTable | app/src/main/java/it/unisannio/studenti/symbolTable/SymbolTable.java:34-38 | A new table has a single root scope. The root is current, has no parent, is at nesting level 0 and is empty. |
| ScopeTree.EnterNew | app/src/main/java/it/unisannio/studenti/symbolTable/SymbolTable.java:45-49 | Adds one scope at the parent's level + 1 and appends it as the last child of the current scope. The new scope becomes current. No other scope changes. |
| ScopeTree.EnterNextChild | app/src/main/java/it/unisannio/studenti/symbolTable/SymbolTable.java:54-60 | Enters the child under the cursor and advances the cursor if and only if a child remains. Otherwise the table is unchanged. The tree's shape never changes. |
| ScopeTree.Exit | app/src/main/java/it/unisannio/studenti/symbolTable/SymbolTable.java:65-71 | Moves to the parent exactly when the current scope is not the root. At the root it is a no-op. The scopes are untouched. |
| ScopeTree.ResetCursors | app/src/main/java/it/unisannio/studenti/symbolTable/SymbolTable.java:76-86 | Makes the root current and zeroes every cursor. Apart from the cursor, every scope is unchanged. |
| ScopeTree.Declare | app/src/main/java/it/unisannio/studenti/symbolTable/SymbolTable.java:104-118 | Succeeds if and only if the name is new in the current scope. On failure the table is unchanged. On success the name maps to an entry at the scope's level, and only a VAR moves the offset cursor down by 8. |
| ScopeTree.LocalsSize | app/src/main/java/it/unisannio/studenti/symbolTable/SymbolTable.java:88-92 | The locals size is 8 times the number of VARs in the current scope, so it is never negative. |
| ScopeTree.ResolveIsFirstOnChain | app/src/main/java/it/unisannio/studenti/symbolTable/SymbolTable.java:120-129 | Lookup returns the entry of the first scope on the parent chain that declares the name, so it shadows every later one. It finds nothing only when no scope on the chain declares the name. |
| ScopeTree.ResolveByLevel | app/src/main/java/it/unisannio/studenti/symbolTable/SymbolTable.java:104-129 | A resolved symbol's nesting level is at most the current level. The symbol is declared in the ancestor that many levels up, which the static-link walk reaches. |
| ScopeTree.ResolveIgnoresCursors | app/src/main/java/it/unisannio/studenti/symbolTable/SymbolTable.java:120-129 | Lookup depends only on the tree's shape and symbols, not on the traversal cursors. |
| ScopeTree.ReplayKeepsShape | app/src/main/java/it/unisannio/studenti/symbolTable/SymbolTable.java:54-71 | Any sequence of enter-next-child and exit moves changes nothing but cursors and the current scope. |
| ScopeTree.TraversalsAfterResetAgree | app/src/main/java/it/unisannio/studenti/symbolTable/SymbolTable.java:76-86 | After a reset, any traversal leaves a table that a second reset returns to the state of the first. So the next pass, started after that second reset, enters the same scopes in the same order as a pass started right after the first. |
| SymbolTables.SymbolTable.constructor | app/src/main/java/it/unisannio/studenti/symbolTable/SymbolTable.java:34-38 | The new object's state is `NewTable()`. |
| SymbolTables.SymbolTable.EnterNewScope | app/src/main/java/it/unisannio/studenti/symbolTable/SymbolTable.java:45-49 | The new state is `EnterNew` of the old one. |
| SymbolTables.SymbolTable.EnterNextChildScope | app/src/main/java/it/unisannio/studenti/symbolTable/SymbolTable.java:54-60 | The new state and the entered flag are `EnterNextChild` of the old state. |
| SymbolTables.SymbolTable.ExitScope | app/src/main/java/it/unisannio/studenti/symbolTable/SymbolTable.java:65-71 | The new state and the exited flag are `Exit` of the old state. |
| SymbolTables.SymbolTable.Reset | app/src/main/java/it/unisannio/studenti/symbolTable/SymbolTable.java:76-79 | The new state is `ResetCursors` of the old one. |
| SymbolTables.SymbolTable.ResetIterators | app/src/main/java/it/unisannio/studenti/symbolTable/SymbolTable.java:81-86 | Exactly the scopes in the subtree of `s` get their cursors zeroed; every other scope keeps its old value. |
| SymbolTables.SymbolTable.GetLocalsSize | app/src/main/java/it/unisannio/studenti/symbolTable/SymbolTable.java:88-92 | Returns `LocalsSize` of the state. |
| SymbolTables.SymbolTable.GetCurrentNestingLevel | app/src/main/java/it/unisannio/studenti/symbolTable/SymbolTable.java:94-96 | Returns the current scope's nesting level. |
| SymbolTables.SymbolTable.AddSymbol | app/src/main/java/it/unisannio/studenti/symbolTable/SymbolTable.java:104-118 | The new state and the result are `Declare` of the old state. |
| SymbolTables.SymbolTable.Lookup | app/src/main/java/it/unisannio/studenti/symbolTable/SymbolTable.java:120-129 | The parent-chain loop returns the first declaring scope's entry, which is `Resolve` from the current scope. |
| SymbolTables.SymbolTable.Contains | app/src/main/java/it/unisannio/studenti/symbolTable/SymbolTable.java:131-133 | True if and only if lookup finds the name. |
| Declarations.DeclareConsts | app/src/main/java/it/unisannio/studenti/symbolTable/PL0SymbolTableBuilder.java:21-31 | Declaring the constants changes only the current scope's symbol map. |
| Declarations.DeclareConstsKeys | app/src/main/java/it/unisannio/studenti/symbolTable/PL0SymbolTableBuilder.java:21-31 | Afterwards the scope's names are the old names plus the constant names. Earlier entries are kept, because a duplicate does not replace the first declaration. |
| Declarations.DeclareConstsEntries | app/src/main/java/it/unisannio/studenti/symbolTable/PL0SymbolTableBuilder.java:25-30 | The i-th constant, when not already declared, is a CONST with the i-th number as its value, at the scope's level. |
| Declarations.DeclareVars | app/src/main/java/it/unisannio/studenti/symbolTable/PL0SymbolTableBuilder.java:34-40 | Declaring the variables changes only the current scope's symbol map and offset cursor. |
| Declarations.DeclareVarsKeys | app/src/main/java/it/unisannio/studenti/symbolTable/PL0SymbolTableBuilder.java:34-40 | Afterwards the scope's names are the old names plus the variable names. Earlier entries are kept. |
| Declarations.DeclareVarsOffsets | app/src/main/java/it/unisannio/studenti/symbolTable/PL0SymbolTableBuilder.java:34-40 | The cursor drops by 8 for each name that is new to the scope, counted once. The first occurrence of each new name is entered as a VAR at the scope's level. Its offset is the cursor minus 8 for every new name before it. A name already in the scope, or repeated, is skipped and takes no slot. |
| Declarations.DeclareProcs | app/src/main/java/it/unisannio/studenti/symbolTable/PL0SymbolTableBuilder.java:43-57 | The declaration pass over a block's procedures. ProcedureDeclaredInEnclosingScope, DeclareProcsChildren and DeclareProcsKeepsSymbols state what it leaves in the enclosing scope, and DeclareBlockShaped the tree it builds. |
| Declarations.ProcedureDeclaredInEnclosingScope | app/src/main/java/it/unisannio/studenti/symbolTable/PL0SymbolTableBuilder.java:43-51 | For every procedure i of a block, its name is in the enclosing scope after the pass. When neither the scope nor an earlier procedure already had the name, it is a PROCEDURE entry at the enclosing level. Whether or not the name was a duplicate, the i-th new child of the enclosing scope is the scope procedure i opened, allocated after the subtrees of procedures 0..i-1. |
| Declarations.DeclareProcsChildren | app/src/main/java/it/unisannio/studenti/symbolTable/PL0SymbolTableBuilder.java:43-51 | The procedures' pass appends exactly one child per procedure to the enclosing scope, in declaration order, each the index its body scope was allocated at. |
| Declarations.DeclareBlockCount | app/src/main/java/it/unisannio/studenti/symbolTable/PL0SymbolTableBuilder.java:43-57 | The pass over a block allocates exactly one scope per procedure declaration at any depth. |
| Declarations.DeclareProcsKeepsSymbols | app/src/main/java/it/unisannio/studenti/symbolTable/PL0SymbolTableBuilder.java:43-51 | Declaring procedures never changes an entry already in the enclosing scope. |
| Declarations.DeclareBlock | app/src/main/java/it/unisannio/studenti/symbolTable/PL0SymbolTableBuilder.java:43-57 | Enter and exit are balanced, so the current scope is the same afterwards. That scope gains exactly one child per procedure, even for a duplicate name. Other existing scopes are unchanged. |
| Declarations.DeclareBlockShaped | app/src/main/java/it/unisannio/studenti/symbolTable/PL0SymbolTableBuilder.java:43-57 | The pass creates one scope per procedure in pre-order. Each block's scope has its procedures' scopes as children in declaration order, and all cursors stay 0. |
| Declarations.BuildFromRoot | app/src/main/java/it/unisannio/studenti/App.java:100-105 | Building from a new table ends at the root with a tree shaped like the program. |
| Declarations.SymbolTableBuilder.constructor | app/src/main/java/it/unisannio/studenti/symbolTable/PL0SymbolTableBuilder.java:13-18 | The builder keeps the table it is given. |
| Declarations.SymbolTableBuilder.Walk | app/src/main/java/it/unisannio/studenti/App.java:105 | The walk over a program leaves the table in state `DeclareBlock` of its old state. |
| Declarations.SymbolTableBuilder.WalkBlock | app/src/main/java/it/unisannio/studenti/symbolTable/PL0SymbolTableBuilder.java:20-57 | The listener's pre-order walk over a block (constants, variables, then each procedure's enter, body and exit) ends in `DeclareBlock` of the old state. |
| Declarations.SymbolTableBuilder.EnterConstDeclaration | app/src/main/java/it/unisannio/studenti/symbolTable/PL0SymbolTableBuilder.java:21-31 | The loop leaves the table in `DeclareConsts` of its old state. |
| Declarations.SymbolTableBuilder.EnterVarDeclaration | app/src/main/java/it/unisannio/studenti/symbolTable/PL0SymbolTableBuilder.java:34-40 | The loop leaves the table in `DeclareVars` of its old state. |
| Declarations.SymbolTableBuilder.EnterProcedureDeclaration | app/src/main/java/it/unisannio/studenti/symbolTable/PL0SymbolTableBuilder.java:43-51 | Declares the name as a PROCEDURE, whether or not that succeeds, and then enters a new scope. |
| Declarations.SymbolTableBuilder.ExitProcedureDeclaration | app/src/main/java/it/unisannio/studenti/symbolTable/PL0SymbolTableBuilder.java:54-57 | Exits to the parent scope. |
| Traversal.VisibleResolves | app/src/main/java/it/unisannio/studenti/symbolTable/SymbolTable.java:120-129 | Looking up a name equals finding it in the visible environment: the outer scopes' maps overridden by the inner ones. |
| Traversal.LookupIsFind | app/src/main/java/it/unisannio/studenti/symbolTable/SymbolTable.java:120-129 | The table's lookup is a find in the environment visible from the current scope. |
| Traversal.ProcsEnter | app/src/main/java/it/unisannio/studenti/symbolTable/PL0SemanticChecker.java:31-34 | On a shaped, reset tree, entering the next child before the i-th procedure always succeeds and lands in that procedure's own scope. |
| Traversal.ProcsLeave | app/src/main/java/it/unisannio/studenti/symbolTable/PL0SemanticChecker.java:37-39 | After a procedure's body is walked, exiting succeeds and returns to the enclosing scope, with the cursor past that child. |
| Checking.BadCountZero | app/src/main/java/it/unisannio/studenti/symbolTable/PL0SemanticChecker.java:25-28 | The count of bad uses is 0 if and only if no use is bad. |
| Checking.StmtErrorsAreBadUses | app/src/main/java/it/unisannio/studenti/symbolTable/PL0SemanticChecker.java:44-101 | A statement's error count equals the number of bad uses in its list of uses. An assignment target or read name is bad when it is unresolved or not a VAR, a callee when it is not a PROCEDURE, and a factor when it is unresolved or a PROCEDURE. Every use is counted, with no early stop. |
| Checking.NoStmtErrorsIffUsesOk | app/src/main/java/it/unisannio/studenti/symbolTable/PL0SemanticChecker.java:44-101 | A statement has no errors if and only if none of its uses is bad. |
| Checking.CheckBlock | app/src/main/java/it/unisannio/studenti/symbolTable/PL0SemanticChecker.java:31-101 | The checking walk of a block. CheckMatchesReference equates its count with the cursor-free reference, and StmtErrorsAreBadUses equates each statement's errors with its bad uses. |
| Checking.CheckProcs | app/src/main/java/it/unisannio/studenti/symbolTable/PL0SemanticChecker.java:31-39 | The checking walk of a block's procedures, each in the next child scope. CheckProcsMatch equates it with the reference, one procedure per child. |
| Checking.CheckMatchesReference | app/src/main/java/it/unisannio/studenti/symbolTable/PL0SemanticChecker.java:31-39 | On a reset tree shaped like the block, the checking pass declares nothing and returns to the scope it started in. Each procedure is checked in its own scope, so the count equals the cursor-free reference count. |
| Checking.SemanticChecker.constructor | app/src/main/java/it/unisannio/studenti/symbolTable/PL0SemanticChecker.java:13-19 | Starts with no errors and keeps the table it is given. |
| Checking.SemanticChecker.GetErrorCount | app/src/main/java/it/unisannio/studenti/symbolTable/PL0SemanticChecker.java:21-23 | Returns the error count. |
| Checking.SemanticChecker.ReportError | app/src/main/java/it/unisannio/studenti/symbolTable/PL0SemanticChecker.java:25-28 | Increments the count by exactly 1. |
| Checking.SemanticChecker.Walk | app/src/main/java/it/unisannio/studenti/App.java:118-122 | The walk over a program moves the table and the count as `CheckBlock` says. |
| Checking.SemanticChecker.WalkBlock | app/src/main/java/it/unisannio/studenti/symbolTable/PL0SemanticChecker.java:31-101 | The listener's walk over a block moves the table as `CheckBlock` says. It adds that function's count to `errorCount`. |
| Checking.SemanticChecker.WalkProcedure | app/src/main/java/it/unisannio/studenti/symbolTable/PL0SemanticChecker.java:31-39 | Enters the next child, walks the body and exits. The state and count follow `CheckBlock` of the body. |
| Checking.SemanticChecker.EnterProcedureDeclaration | app/src/main/java/it/unisannio/studenti/symbolTable/PL0SemanticChecker.java:31-34 | Enters the next child scope. |
| Checking.SemanticChecker.ExitProcedureDeclaration | app/src/main/java/it/unisannio/studenti/symbolTable/PL0SemanticChecker.java:37-39 | Exits the scope. |
| Checking.SemanticChecker.EnterAssignmentStatement | app/src/main/java/it/unisannio/studenti/symbolTable/PL0SemanticChecker.java:44-56 | Adds 1 exactly when the target is unresolved or not a VAR. |
| Checking.SemanticChecker.EnterCallStatement | app/src/main/java/it/unisannio/studenti/symbolTable/PL0SemanticChecker.java:59-71 | Adds 1 exactly when the callee is unresolved or not a PROCEDURE. |
| Checking.SemanticChecker.EnterReadStatement | app/src/main/java/it/unisannio/studenti/symbolTable/PL0SemanticChecker.java:74-86 | Adds one error per name that is unresolved or not a VAR, checking every name. |
| Checking.SemanticChecker.EnterFactor | app/src/main/java/it/unisannio/studenti/symbolTable/PL0SemanticChecker.java:89-101 | Adds 1 exactly when the name is unresolved or a PROCEDURE. |
| Checking.SemanticChecker.WalkExpression | app/src/main/java/it/unisannio/studenti/symbolTable/PL0SemanticChecker.java:89-101 | Adds the errors of every factor of the expression. |
| Checking.SemanticChecker.WalkCondition | app/src/main/java/it/unisannio/studenti/symbolTable/PL0SemanticChecker.java:89-101 | Adds the errors of every factor of the condition. |
| Checking.SemanticChecker.WalkStatement | app/src/main/java/it/unisannio/studenti/symbolTable/PL0SemanticChecker.java:44-101 | Adds `StmtErrors` of the statement, visiting the nested statements in source order. |
| CodeGen.PaddingAligns | app/src/main/java/it/unisannio/studenti/codegen/ASTCodeGenerator.java:73-74 | 0 ≤ padding < 16, and locals + padding + 8 is a multiple of 16. The padding is the least such value, and locals + padding is always positive. |
| CodeGen.FrameWalk | app/src/main/java/it/unisannio/studenti/codegen/ASTCodeGenerator.java:34-40 | `mov %rbp, %rbx` followed by exactly `hops` copies of `mov -8(%rbx), %rbx`. |
| CodeGen.FrameWalkReaches | app/src/main/java/it/unisannio/studenti/codegen/ASTCodeGenerator.java:34-40 | Running the walk leaves in `%rbx` the frame `hops` static links up, and fails exactly when a link is missing. |
| CodeGen.JumpFor | app/src/main/java/it/unisannio/studenti/codegen/ASTCodeGenerator.java:248-255 | The chosen jump is taken if and only if the relational operator holds (`=`/`#`/`<`/`<=`/`>`/`>=` as je/jne/jl/jle/jg/jge). |
| CodeGen.GenExpr | app/src/main/java/it/unisannio/studenti/codegen/ASTCodeGenerator.java:267-321 | Expression code. ExprComputes states that it pushes the expression's value, ExprSomeIff that it exists exactly when every name resolves, and GenExprNoJumps that it has no jumps or labels. |
| CodeGen.GenExprNoJumps | app/src/main/java/it/unisannio/studenti/codegen/ASTCodeGenerator.java:267-321 | Expression code holds no jumps and no labels. |
| CodeGen.ExprComputes | app/src/main/java/it/unisannio/studenti/codegen/ASTCodeGenerator.java:267-321 | In a machine whose frames agree with the variables' values, expression code pushes exactly one value onto the stack, the expression's value, leaving the rest of the stack, the memory and the frame base unchanged. When the value is undefined (a division by zero) the code traps. |
| CodeGen.BinaryComputes | app/src/main/java/it/unisannio/studenti/codegen/ASTCodeGenerator.java:267-287 | Left then right are evaluated and popped into `%rbx` (right) and `%rax` (left). One result, left op right, is pushed. |
| CodeGen.DivisionComputes | app/src/main/java/it/unisannio/studenti/codegen/ASTCodeGenerator.java:281-285 | `cqo; idiv` with a nonzero divisor pushes the quotient truncated toward zero. A zero divisor traps. |
| CodeGen.UnaryComputes | app/src/main/java/it/unisannio/studenti/codegen/ASTCodeGenerator.java:290-299 | A leading `-` negates the value on top. `+` leaves its operand's code unchanged. |
| CodeGen.NegateComputes | app/src/main/java/it/unisannio/studenti/codegen/ASTCodeGenerator.java:293-297 | `pop; neg; push` replaces the top value with its negation. |
| CodeGen.VariableComputes | app/src/main/java/it/unisannio/studenti/codegen/ASTCodeGenerator.java:302-321 | A CONST pushes its stored value with no frame walk. A VAR walks to its level and pushes the word at its offset, which is its value. |
| CodeGen.LoadComputes | app/src/main/java/it/unisannio/studenti/codegen/ASTCodeGenerator.java:316-318 | The frame walk followed by the load pushes the word stored at that frame and offset. |
| CodeGen.BranchComputes | app/src/main/java/it/unisannio/studenti/codegen/ASTCodeGenerator.java:257-262 | The jump/push/label sequence pushes 1 when the flags satisfy the jump and 0 otherwise. |
| CodeGen.RelationalTailComputes | app/src/main/java/it/unisannio/studenti/codegen/ASTCodeGenerator.java:240-262 | After both operands, the tail pushes exactly 1 if the comparison holds and 0 otherwise. |
| CodeGen.ParityComputes | app/src/main/java/it/unisannio/studenti/codegen/ASTCodeGenerator.java:228-234 | `pop; and $1; push` replaces the top value with 1 when it is odd and 0 when it is even. |
| CodeGen.GenCond | app/src/main/java/it/unisannio/studenti/codegen/ASTCodeGenerator.java:228-264 | Condition code. CondComputes states that it pushes 1 exactly when the condition holds, CondSomeIff when it exists, and CondLabels which labels it takes. |
| CodeGen.CondComputes | app/src/main/java/it/unisannio/studenti/codegen/ASTCodeGenerator.java:228-264 | Condition code pushes exactly one value: 1 when the condition holds, 0 otherwise. It fails only when an operand fails. |
| CodeGen.ExprSomeIff | app/src/main/java/it/unisannio/studenti/codegen/ASTCodeGenerator.java:309-321 | Expression code exists if and only if every name in the expression resolves. Otherwise the lookup's null ends generation. |
| CodeGen.GenStmt | app/src/main/java/it/unisannio/studenti/codegen/ASTCodeGenerator.java:122-225 | Statement code. StmtSomeIff states when it exists, StmtGenerates that checked statements always have code, and StmtLabels, IfLabels and WhileLabels the label discipline. |
| CodeGen.StmtSomeIff | app/src/main/java/it/unisannio/studenti/codegen/ASTCodeGenerator.java:122-225 | Statement code exists if and only if every name used in the statement resolves. |
| CodeGen.StmtGenerates | app/src/main/java/it/unisannio/studenti/codegen/ASTCodeGenerator.java:122-225 | A statement the checker accepts always has code. |
| CodeGen.StmtLabels | app/src/main/java/it/unisannio/studenti/codegen/ASTCodeGenerator.java:155-192 | Statement code started at counter k defines each label k..k'-1 exactly once, where k' is the final counter. It jumps to no other numbered label. |
| CodeGen.GenElse | app/src/main/java/it/unisannio/studenti/codegen/ASTCodeGenerator.java:168-170 | The ELSE part of an IF: empty code when it is absent. ElseLabels states its labels, and IfLabels those of the whole IF. |
| CodeGen.IfLabels | app/src/main/java/it/unisannio/studenti/codegen/ASTCodeGenerator.java:155-174 | The IF's else and end labels, and those of its parts, are each defined exactly once, and every jump stays inside that range. |
| CodeGen.WhileLabels | app/src/main/java/it/unisannio/studenti/codegen/ASTCodeGenerator.java:177-192 | The WHILE's start and end labels, and those of its parts, are each defined exactly once, and every jump stays inside that range. |
| CodeGen.CondLabels | app/src/main/java/it/unisannio/studenti/codegen/ASTCodeGenerator.java:237-264 | A relational condition started at counter k ends at k+2 and defines the labels k and k+1 exactly once each. An ODD condition ends at k and defines none. Neither jumps outside its own labels. |
| Generator.GenBlock | app/src/main/java/it/unisannio/studenti/codegen/ASTCodeGenerator.java:64-91 | Block code. BlockLabels states its label discipline. GenFollowsCheck states that it succeeds when the checker counts no error in the block, and leaves the table where the checker leaves it. |
| Generator.GenProcs | app/src/main/java/it/unisannio/studenti/codegen/ASTCodeGenerator.java:84-86 | The procedures of a block in order. ProcsLabels states their labels and ProcsFollowCheck that they follow the checker's scopes. |
| Generator.GenProc | app/src/main/java/it/unisannio/studenti/codegen/ASTCodeGenerator.java:106-120 | One procedure, generated in the next child scope. ProcLabels states its labels. ProcsFollowCheck states that it enters and exits the scopes the checker does. |
| Generator.BlockLabels | app/src/main/java/it/unisannio/studenti/codegen/ASTCodeGenerator.java:64-91 | A block's code, including its nested procedures, defines every label it allocates exactly once and jumps only to those. |
| Generator.GenProgram | app/src/main/java/it/unisannio/studenti/codegen/ASTCodeGenerator.java:43-61 | The whole program. ProgramLabels states its label discipline. |
| Generator.ProgramLabels | app/src/main/java/it/unisannio/studenti/codegen/ASTCodeGenerator.java:43-61 | The same holds for the whole program's code. |
| Generator.GenFollowsCheck | app/src/main/java/it/unisannio/studenti/codegen/ASTCodeGenerator.java:106-120 | When the checker finds no errors, the code generator succeeds. It enters and exits exactly the scopes the checker does, so the scope after a procedure equals the one before. |
| Generator.ReadyTable | app/src/main/java/it/unisannio/studenti/App.java:100-118 | The table after the declaration pass and a reset is ready for re-entry: shaped like the program, cursors at 0, root current. |
| Generator.Compile | app/src/main/java/it/unisannio/studenti/App.java:100-169 | The pipeline. CompileSucceedsIffNoErrors states that it yields code exactly when no semantic error is counted, and that the code's labels are each defined once. |
| Generator.CompileSucceedsIffNoErrors | app/src/main/java/it/unisannio/studenti/App.java:100-169 | The pipeline produces code if and only if the reference count of semantic errors is 0. Its code defines each numbered label it allocates exactly once and jumps to no other. |
| CodeGenerators.CodeGenerator.constructor | app/src/main/java/it/unisannio/studenti/codegen/ASTCodeGenerator.java:9-16 | Starts with empty output and counter 0. |
| CodeGenerators.CodeGenerator.GetAssembly | app/src/main/java/it/unisannio/studenti/codegen/ASTCodeGenerator.java:18-20 | Returns the text of the emitted instructions. |
| CodeGenerators.CodeGenerator.NewLabel | app/src/main/java/it/unisannio/studenti/codegen/ASTCodeGenerator.java:22-24 | Returns label `L<k>` and increments the counter, so no two labels of one generator are equal. |
| CodeGenerators.CodeGenerator.Emit | app/src/main/java/it/unisannio/studenti/codegen/ASTCodeGenerator.java:26-28 | Appends one instruction. |
| CodeGenerators.CodeGenerator.EmitLabel | app/src/main/java/it/unisannio/studenti/codegen/ASTCodeGenerator.java:30-32 | Appends one label definition. |
| CodeGenerators.CodeGenerator.LoadFramePointer | app/src/main/java/it/unisannio/studenti/codegen/ASTCodeGenerator.java:34-40 | The loop appends the static-link walk of max(0, current − target) hops. |
| CodeGenerators.CodeGenerator.EmitHeader | app/src/main/java/it/unisannio/studenti/codegen/ASTCodeGenerator.java:44-53 | Appends the data/text directives, `main:` and main's prologue with a zero static link. |
| CodeGenerators.CodeGenerator.EmitExit | app/src/main/java/it/unisannio/studenti/codegen/ASTCodeGenerator.java:57-59 | Appends `mov $0, %rax; leave; ret`. |
| CodeGenerators.CodeGenerator.EmitFrame | app/src/main/java/it/unisannio/studenti/codegen/ASTCodeGenerator.java:73-81 | Appends `sub` of locals + padding only when that is positive. It then takes a new start label and jumps to it. |
| CodeGenerators.CodeGenerator.EmitPrologue | app/src/main/java/it/unisannio/studenti/codegen/ASTCodeGenerator.java:108-111 | Appends `proc_name:` and the prologue that saves the static link. |
| CodeGenerators.CodeGenerator.EmitEpilogue | app/src/main/java/it/unisannio/studenti/codegen/ASTCodeGenerator.java:117-118 | Appends `leave; ret`. |
| CodeGenerators.CodeGenerator.EmitBranchIfFalse | app/src/main/java/it/unisannio/studenti/codegen/ASTCodeGenerator.java:160-162 | Appends `pop %rax; cmp $0, %rax; je L`. |
| CodeGenerators.CodeGenerator.EmitOperator | app/src/main/java/it/unisannio/studenti/codegen/ASTCodeGenerator.java:271-285 | Appends the two pops, the operator's instructions and the push. |
| CodeGenerators.CodeGenerator.EmitComparison | app/src/main/java/it/unisannio/studenti/codegen/ASTCodeGenerator.java:240-262 | Appends the comparison tail with two fresh labels and advances the counter by 2. |
| CodeGenerators.CodeGenerator.EmitScanf | app/src/main/java/it/unisannio/studenti/codegen/ASTCodeGenerator.java:201-204 | Appends the address computation and the `scanf` call sequence. |
| CodeGenerators.CodeGenerator.EmitPrintf | app/src/main/java/it/unisannio/studenti/codegen/ASTCodeGenerator.java:213-216 | Appends the pop into `%rsi` and the `printf` call sequence. |
| CodeGenerators.CodeGenerator.VisitProgram | app/src/main/java/it/unisannio/studenti/codegen/ASTCodeGenerator.java:43-61 | Appends exactly `GenProgram`'s code, succeeding exactly when it does, and leaves the table and counter as that function does. |
| CodeGenerators.CodeGenerator.VisitBlock | app/src/main/java/it/unisannio/studenti/codegen/ASTCodeGenerator.java:64-91 | Appends exactly `GenBlock`'s code, succeeding exactly when it does, and leaves the table and counter as that function does. |
| CodeGenerators.CodeGenerator.VisitProcedures | app/src/main/java/it/unisannio/studenti/codegen/ASTCodeGenerator.java:84-86 | The loop over the procedures appends exactly `GenProcs`' code. |
| CodeGenerators.CodeGenerator.VisitProcedure | app/src/main/java/it/unisannio/studenti/codegen/ASTCodeGenerator.java:106-120 | Appends exactly `GenProc`'s code and ends in the state that function gives. |
| CodeGenerators.CodeGenerator.VisitStatement | app/src/main/java/it/unisannio/studenti/codegen/ASTCodeGenerator.java:122-225 | Dispatches on the statement and appends exactly `GenStmt`'s code and label count. It fails exactly when that function does. |
| CodeGenerators.CodeGenerator.VisitAssignment | app/src/main/java/it/unisannio/studenti/codegen/ASTCodeGenerator.java:122-133 | Appends the expression, `pop %rax`, the walk to the target's level and the store at its offset. |
| CodeGenerators.CodeGenerator.VisitCall | app/src/main/java/it/unisannio/studenti/codegen/ASTCodeGenerator.java:135-144 | Appends the walk to the callee's level, `mov %rbx, %r10` and `call proc_name`. |
| CodeGenerators.CodeGenerator.VisitBegin | app/src/main/java/it/unisannio/studenti/codegen/ASTCodeGenerator.java:146-152 | The loop appends the statements' code in order, threading the counter. |
| CodeGenerators.CodeGenerator.VisitIf | app/src/main/java/it/unisannio/studenti/codegen/ASTCodeGenerator.java:154-174 | Takes two labels, then appends the IF code around the condition's, THEN's and ELSE's code. |
| CodeGenerators.CodeGenerator.VisitBranches | app/src/main/java/it/unisannio/studenti/codegen/ASTCodeGenerator.java:164-172 | Appends the THEN part, `jmp end`, `else:`, the ELSE part and `end:`. |
| CodeGenerators.CodeGenerator.VisitElse | app/src/main/java/it/unisannio/studenti/codegen/ASTCodeGenerator.java:168-170 | Appends the ELSE statement's code, or nothing when there is none. |
| CodeGenerators.CodeGenerator.VisitWhile | app/src/main/java/it/unisannio/studenti/codegen/ASTCodeGenerator.java:176-192 | Takes two labels, then appends the WHILE code around the condition's and body's code. |
| CodeGenerators.CodeGenerator.VisitLoopBody | app/src/main/java/it/unisannio/studenti/codegen/ASTCodeGenerator.java:187-190 | Appends the body, `jmp start` and `end:`. |
| CodeGenerators.CodeGenerator.VisitRead | app/src/main/java/it/unisannio/studenti/codegen/ASTCodeGenerator.java:194-207 | The loop appends, for each name in order, the walk to its level and the `scanf` call into its offset. |
| CodeGenerators.CodeGenerator.VisitWrite | app/src/main/java/it/unisannio/studenti/codegen/ASTCodeGenerator.java:209-219 | The loop appends, for each expression in order, its code and the `printf` call. |
| CodeGenerators.CodeGenerator.VisitCondition | app/src/main/java/it/unisannio/studenti/codegen/ASTCodeGenerator.java:227-264 | Appends exactly `GenCond`'s code and label count. |
| CodeGenerators.CodeGenerator.VisitOdd | app/src/main/java/it/unisannio/studenti/codegen/ASTCodeGenerator.java:227-234 | Appends the operand and `pop; and $1; push`. |
| CodeGenerators.CodeGenerator.VisitRelational | app/src/main/java/it/unisannio/studenti/codegen/ASTCodeGenerator.java:236-264 | Appends left, right and the comparison tail with the next two labels. |
| CodeGenerators.CodeGenerator.VisitExpression | app/src/main/java/it/unisannio/studenti/codegen/ASTCodeGenerator.java:266-321 | Appends exactly `GenExpr`'s code and takes no label. |
| CodeGenerators.CodeGenerator.VisitBinary | app/src/main/java/it/unisannio/studenti/codegen/ASTCodeGenerator.java:266-287 | Appends left, right and the operator tail. |
| CodeGenerators.CodeGenerator.VisitUnary | app/src/main/java/it/unisannio/studenti/codegen/ASTCodeGenerator.java:289-299 | Appends the operand, followed by the negation only for `-`. |
| CodeGenerators.CodeGenerator.VisitNumber | app/src/main/java/it/unisannio/studenti/codegen/ASTCodeGenerator.java:301-306 | Appends `mov $v, %rax; push %rax`. |
| CodeGenerators.CodeGenerator.VisitVariable | app/src/main/java/it/unisannio/studenti/codegen/ASTCodeGenerator.java:308-321 | Appends the CONST's immediate push, or the VAR's walk and load. It fails on an unresolved name. |
| CodeGenerators.BuildSymbolTable | app/src/main/java/it/unisannio/studenti/App.java:100-105 | A new table walked by the builder ends in `DeclareBlock(NewTable(), …)`. |
| CodeGenerators.Analyse | app/src/main/java/it/unisannio/studenti/App.java:118-126 | Reset, then the checker: the state and count are `CheckBlock` of the reset table. |
| CodeGenerators.GenerateCode | app/src/main/java/it/unisannio/studenti/App.java:153-158 | Reset, then the generator from counter 0. It yields the text of `GenProgram`'s code, or nothing when generation fails. |
| CodeGenerators.RunCompiler | app/src/main/java/it/unisannio/studenti/App.java:100-169 | The three phases chained as the pipeline does. The result is the text of `Compile`, or nothing when the checker reports errors. |

## Left out

- Console and file I/O are not modelled: `System.out`/`System.err` messages, the `.s`, AST and CST JSON files, `printTable`/`printScope` and every `toJson`. Diagnostics become returned booleans or the error count.
- Lexing, parsing and the ANTLR listener/visitor dispatch are not modelled. The passes walk the `Ast` datatype directly, in the listener's pre-order. The AST builder is not part of this model; only the tree's shape is taken from it.
- Scope ids and the scope counter are not modelled. An arena index plays the id's role; arena order is creation order.
- Symbol aliasing is not modelled: the table stores a value snapshot of each finished `Symbol`, because nothing changes a symbol after it is stored.
- The two-argument `addSymbol` overload is not a separate member. It is `AddSymbol` with no value.
- `Integer.parseInt` is not modelled: constants carry their integer value already parsed, so its failure is not modelled.
- Integers are unbounded: 64-bit overflow of `add`/`sub`/`imul`/`neg` and `idiv` overflow are not modelled.
- The abstract machine is not real x86. It follows only forward jumps, so loops, calls, `scanf` and `printf` are not executed. Statements are specified by the code they emit and by their label discipline, not by running them.
- The operand stack is a separate sequence, not memory under `%rsp`, so the alignment padding is proved as arithmetic only.
- The emitted text is held as `seq<Instr>`. `Assembly` renders it, and no property of the rendering is proved.
- A CONST without a value never occurs after the declaration pass. Its immediate is rendered as 0 where the source would print `null`.
- Procedure labels `proc_<name>` are not unique when two procedures share a name. The label lemmas speak only of the numbered `L<k>` labels.
- CodeGenerators.CodeGenerator.VisitStatement: an unresolved name, which is a null-pointer exception in the source, ends generation with `ok == false`. The buffer's contents after such a failure are not specified.
- These methods have no counterpart in the source: `EmitAll`, `VisitElse`, `VisitBranches`, `VisitLoopBody`, `VisitProcedures` and `SemanticChecker.WalkProcedure`. Each is a slice of a single source method, split out so that each proof stays small.
- The driver is split into `BuildSymbolTable`, `Analyse` and `GenerateCode`. The exception handlers around each phase become the `Option` result.

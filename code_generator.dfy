/** The `ASTCodeGenerator` visitor (`codegen/ASTCodeGenerator.java`): it
    appends assembly to a buffer, numbers labels with a counter and moves
    the symbol table's cursor into each procedure's scope as it goes.  Each
    visit is proved against the generator's functions: it succeeds exactly
    when they do, and then appends their code, advances the counter to the
    next free label and leaves the table where they say.  A visit that
    fails stands for the exception the source raises on a name it cannot
    resolve; the buffer is then of no further use. */
module CodeGenerators {
  import opened Wrappers
  import opened Symbols
  import opened Ast
  import opened ScopeTree
  import opened SymbolTables
  import opened Declarations
  import opened Traversal
  import opened Checking
  import opened Machine
  import opened CodeGen
  import opened Generator

  // ---------------------------------------------------------------------
  // A failure in a prefix is a failure of the whole list

  lemma {:induction false} StmtsPrefixFails(env: Env, level: int, k: nat, ss: seq<Statement>, j: nat)
    requires j <= |ss| && GenStmts(env, level, k, ss[..j]).None?
    ensures GenStmts(env, level, k, ss).None?
    decreases |ss| - j
  {
    if j == |ss| {
      assert ss[..j] == ss;
    } else {
      assert ss[..j + 1][..j] == ss[..j];
      StmtsPrefixFails(env, level, k, ss, j + 1);
    }
  }

  lemma {:induction false} ReadPrefixFails(env: Env, level: int, names: seq<string>, j: nat)
    requires j <= |names| && ReadCode(env, level, names[..j]).None?
    ensures ReadCode(env, level, names).None?
    decreases |names| - j
  {
    if j == |names| {
      assert names[..j] == names;
    } else {
      assert names[..j + 1][..j] == names[..j];
      ReadPrefixFails(env, level, names, j + 1);
    }
  }

  lemma {:induction false} WritePrefixFails(env: Env, level: int, es: seq<Expr>, j: nat)
    requires j <= |es| && WriteCode(env, level, es[..j]).None?
    ensures WriteCode(env, level, es).None?
    decreases |es| - j
  {
    if j == |es| {
      assert es[..j] == es;
    } else {
      assert es[..j + 1][..j] == es[..j];
      WritePrefixFails(env, level, es, j + 1);
    }
  }

  /** Appending piece by piece appends the pieces' concatenation. */
  lemma Assoc(a: seq<Instr>, b: seq<Instr>, c: seq<Instr>)
    ensures a + (b + c) == a + b + c
  {
  }

  /** The code already emitted in front of what is still to come. */
  function Prepend(done: seq<Instr>, r: Option<(Table, seq<Instr>, nat)>): Option<(Table, seq<Instr>, nat)> {
    if r.None? then None else Some((r.value.0, done + r.value.1, r.value.2))
  }

  lemma PrependNothing(r: Option<(Table, seq<Instr>, nat)>)
    ensures Prepend([], r) == r
  {
    if r.Some? {
      assert [] + r.value.1 == r.value.1;
    }
  }

  /** The pieces VisitIf emits, one after the other, make up IfCode. */
  lemma IfAsm(a: seq<Instr>, k: nat, cc: seq<Instr>, ct: seq<Instr>, ce: seq<Instr>)
    ensures a + cc + BranchIfFalse(k) + ct + [Jmp(Numbered(k + 1)), Def(Numbered(k))] + ce + [Def(Numbered(k + 1))]
            == a + IfCode(k, cc, ct, ce)
  {
  }

  /** The pieces VisitWhile emits, one after the other, make up WhileCode. */
  lemma WhileAsm(a: seq<Instr>, k: nat, cc: seq<Instr>, cd: seq<Instr>)
    ensures a + [Def(Numbered(k))] + cc + BranchIfFalse(k + 1) + cd + [Jmp(Numbered(k)), Def(Numbered(k + 1))]
            == a + WhileCode(k, cc, cd)
  {
  }

  lemma WhileGen(env: Env, level: int, k: nat, c: Condition, d: Statement)
    ensures var cc := GenCond(env, level, k + 2, c);
            var cd := if cc.Some? then GenStmt(env, level, cc.value.1, d) else None;
            GenStmt(env, level, k, While(c, d))
            == if cd.None? then None else Some((WhileCode(k, cc.value.0, cd.value.0), cd.value.1))
  {
  }

  lemma IfGen(env: Env, level: int, k: nat, c: Condition, th: Statement, el: Option<Statement>)
    ensures var cc := GenCond(env, level, k + 2, c);
            var ct := if cc.Some? then GenStmt(env, level, cc.value.1, th) else None;
            var ce := if ct.Some? then GenElse(env, level, ct.value.1, el) else None;
            GenStmt(env, level, k, If(c, th, el))
            == if ce.None? then None else Some((IfCode(k, cc.value.0, ct.value.0, ce.value.0), ce.value.1))
  {
  }

  lemma BlockGen(t: Table, k: nat, b: Block)
    requires Valid(t)
    ensures GenProcs(t, b, 0, k + 1).None? ==> GenBlock(t, k, b).None?
    ensures GenProcs(t, b, 0, k + 1).Some? ==>
              var pr := GenProcs(t, b, 0, k + 1).value;
              var g := GenStmt(EnvOf(pr.0), Level(pr.0), pr.2, b.stmt);
              GenBlock(t, k, b) ==
                if g.None? then None
                else Some((pr.0, FrameCode(LocalsSize(t), k) + pr.1 + [Def(Numbered(k))] + g.value.0, g.value.1))
  {
  }

  lemma ProcGen(t: Table, k: nat, p: ProcDecl)
    requires Valid(t)
    ensures var t1 := EnterNextChild(t).0;
            var g := GenBlock(t1, k, p.body);
            GenProc(t, k, p) ==
              if g.None? then None
              else Some((Exit(g.value.0).0, Prologue(p.name) + g.value.1 + [Instr.Leave, Ret], g.value.2))
  {
  }

  /** One more expression of a WRITE: its code and the `printf` call go last. */
  lemma WriteStep(env: Env, level: int, es: seq<Expr>, i: nat)
    requires i < |es| && WriteCode(env, level, es[..i]).Some? && GenExpr(env, level, es[i]).Some?
    ensures WriteCode(env, level, es[..i + 1])
            == Some(WriteCode(env, level, es[..i]).value + GenExpr(env, level, es[i]).value
                    + [Pop(Rsi), LeaFormat(FmtOut, Rdi), MovImm(0, Rax), CallExtern(Printf)])
  {
    assert es[..i + 1][..i] == es[..i];
  }

  lemma ReadStep(env: Env, level: int, names: seq<string>, i: nat)
    requires i < |names| && ReadCode(env, level, names[..i]).Some? && names[i] in env
    ensures ReadCode(env, level, names[..i + 1])
            == Some(ReadCode(env, level, names[..i]).value + WalkTo(level, env[names[i]])
                    + [Lea(env[names[i]].offset, Rbx, Rsi), LeaFormat(FmtIn, Rdi), MovImm(0, Rax), CallExtern(Scanf)])
  {
    assert names[..i + 1][..i] == names[..i];
  }

  lemma RelationalGen(env: Env, level: int, k: nat, l: Expr, op: RelOp, r: Expr)
    ensures GenCond(env, level, k, Relational(l, op, r))
            == if GenExpr(env, level, l).None? || GenExpr(env, level, r).None? then None
               else Some((GenExpr(env, level, l).value + GenExpr(env, level, r).value + RelationalTail(op, k, k + 1), k + 2))
  {
  }

  lemma BinaryGen(env: Env, level: int, op: BinaryOp, l: Expr, r: Expr)
    ensures GenExpr(env, level, Binary(op, l, r))
            == if GenExpr(env, level, l).None? || GenExpr(env, level, r).None? then None
               else Some(GenExpr(env, level, l).value + GenExpr(env, level, r).value + BinaryTail(op))
  {
    if GenExpr(env, level, l).Some? && GenExpr(env, level, r).Some? {
      var c := GenExpr(env, level, l).value + GenExpr(env, level, r).value;
      Assoc(c, [Pop(Rbx), Pop(Rax)] + OpCode(op), [PushReg(Rax)]);
      Assoc(c, [Pop(Rbx), Pop(Rax)], OpCode(op));
    }
  }

  lemma ProgramGen(t: Table, k: nat, p: Program)
    requires Valid(t)
    ensures GenProgram(t, k, p)
            == if GenBlock(t, k, p.block).None? then None
               else Some((GenBlock(t, k, p.block).value.0, Header() + GenBlock(t, k, p.block).value.1 + [MovImm(0, Rax), Instr.Leave, Ret],
                          GenBlock(t, k, p.block).value.2))
  {
  }

  /** One more statement of a BEGIN: its code after the code so far. */
  lemma StmtsStep(env: Env, level: int, k: nat, ss: seq<Statement>, i: nat)
    requires i < |ss| && GenStmts(env, level, k, ss[..i]).Some?
    ensures var front := GenStmts(env, level, k, ss[..i]).value;
            var last := GenStmt(env, level, front.1, ss[i]);
            GenStmts(env, level, k, ss[..i + 1])
            == if last.None? then None else Some((front.0 + last.value.0, last.value.1))
  {
    assert ss[..i + 1][..i] == ss[..i];
  }

  lemma PrependTwice(a: seq<Instr>, b: seq<Instr>, r: Option<(Table, seq<Instr>, nat)>)
    ensures Prepend(a, Prepend(b, r)) == Prepend(a + b, r)
  {
    if r.Some? {
      Assoc(a, b, r.value.1);
    }
  }

  /** One procedure of GenProcs: its code goes in front of the rest's. */
  lemma ProcsStep(t: Table, b: Block, i: nat, k: nat)
    requires Valid(t) && i < |b.procs|
    ensures GenProc(t, k, b.procs[i]).None? ==> GenProcs(t, b, i, k).None?
    ensures GenProc(t, k, b.procs[i]).Some? ==>
              var pc := GenProc(t, k, b.procs[i]).value;
              GenProcs(t, b, i, k) == Prepend(pc.1, GenProcs(pc.0, b, i + 1, pc.2))
  {
  }

  // ---------------------------------------------------------------------
  // The visitor

  class CodeGenerator {
    const symbolTable: SymbolTable
    var asm: seq<Instr>
    var labelCounter: nat

    constructor (symbolTable: SymbolTable)
      ensures this.symbolTable == symbolTable && asm == [] && labelCounter == 0
    {
      this.symbolTable := symbolTable;
      asm := [];
      labelCounter := 0;
    }

    /** `getAssembly`: the buffer as text. */
    method GetAssembly() returns (text: string)
      ensures text == Assembly(asm)
    {
      text := Assembly(asm);
    }

    /** `newLabel`: `L` and the counter, which moves on. */
    method NewLabel() returns (l: Label)
      modifies this
      ensures l == Numbered(old(labelCounter)) && labelCounter == old(labelCounter) + 1 && asm == old(asm)
    {
      l := Numbered(labelCounter);
      labelCounter := labelCounter + 1;
    }

    method Emit(i: Instr)
      modifies this
      ensures asm == old(asm) + [i] && labelCounter == old(labelCounter)
    {
      asm := asm + [i];
    }

    method EmitLabel(l: Label)
      modifies this
      ensures asm == old(asm) + [Def(l)] && labelCounter == old(labelCounter)
    {
      Emit(Def(l));
    }

    /** `loadFramePointer`: `%rbx` is walked up the static links from the
        current level to the target level. */
    method LoadFramePointer(targetLevel: int)
      requires symbolTable.Valid()
      modifies this
      ensures asm == old(asm) + FrameWalk(Hops(Level(symbolTable.State()), targetLevel))
      ensures labelCounter == old(labelCounter)
    {
      var currentLevel := symbolTable.GetCurrentNestingLevel();
      Emit(Mov(Rbp, Rbx));
      var i := 0;
      while i < currentLevel - targetLevel
        invariant 0 <= i <= Hops(currentLevel, targetLevel)
        invariant asm == old(asm) + FrameWalk(i)
        invariant labelCounter == old(labelCounter)
        decreases currentLevel - targetLevel - i
      {
        Emit(Load(-8, Rbx, Rbx));
        i := i + 1;
      }
    }

    /** A run of `emit` calls, one instruction after the other. */
    method EmitAll(code: seq<Instr>)
      modifies this
      ensures asm == old(asm) + code && labelCounter == old(labelCounter)
    {
      for j := 0 to |code|
        invariant asm == old(asm) + code[..j] && labelCounter == old(labelCounter)
      {
        assert code[..j + 1] == code[..j] + [code[j]];
        Emit(code[j]);
      }
      assert code[..|code|] == code;
    }

    // The fixed runs of `emit` calls, each on its own so that the visits
    // reason about one appended piece at a time.

    /** `visit(Program)` before the block: sections, format strings, `main`,
        its frame and its zero static link. */
    method EmitHeader()
      modifies this
      ensures asm == old(asm) + Header() && labelCounter == old(labelCounter)
    {
      EmitAll([Dir(DataSection), Dir(FormatInString), Dir(FormatOutString), Dir(TextSection), Dir(GlobalMain),
               Def(MainEntry), PushReg(Rbp), Mov(Rsp, Rbp), PushImm(0)]);
    }

    /** `visit(Program)` after the block: exit status 0 and return. */
    method EmitExit()
      modifies this
      ensures asm == old(asm) + [MovImm(0, Rax), Instr.Leave, Ret] && labelCounter == old(labelCounter)
    {
      Emit(MovImm(0, Rax));
      Emit(Instr.Leave);
      Emit(Ret);
    }

    /** `visit(Block)` up to its procedures: the aligned frame and the jump
        to the block's fresh start label. */
    method EmitFrame(localsSize: int) returns (startLabel: Label)
      modifies this
      ensures asm == old(asm) + FrameCode(localsSize, old(labelCounter))
      ensures startLabel == Numbered(old(labelCounter)) && labelCounter == old(labelCounter) + 1
    {
      var padding := JavaRem(16 - JavaRem(localsSize + 8, 16), 16);
      var totalStackSize := localsSize + padding;
      if totalStackSize > 0 {
        Emit(SubImm(totalStackSize, Rsp));
      }
      startLabel := NewLabel();
      Emit(Jmp(startLabel));
    }

    method EmitPrologue(name: string)
      modifies this
      ensures asm == old(asm) + Prologue(name) && labelCounter == old(labelCounter)
    {
      EmitLabel(ProcEntry(name));
      Emit(PushReg(Rbp));
      Emit(Mov(Rsp, Rbp));
      Emit(PushReg(R10));
    }

    method EmitEpilogue()
      modifies this
      ensures asm == old(asm) + [Instr.Leave, Ret] && labelCounter == old(labelCounter)
    {
      Emit(Instr.Leave);
      Emit(Ret);
    }

    /** Pop the condition's value and leave for `l` when it is 0. */
    method EmitBranchIfFalse(l: Label)
      requires l.Numbered?
      modifies this
      ensures asm == old(asm) + BranchIfFalse(l.n) && labelCounter == old(labelCounter)
    {
      Emit(Pop(Rax));
      Emit(CmpImm(0, Rax));
      Emit(Jcc(Je, l));
    }

    /** `visit(BinaryExpression)` after its operands. */
    method EmitOperator(op: BinaryOp)
      modifies this
      ensures asm == old(asm) + BinaryTail(op)
      ensures labelCounter == old(labelCounter)
    {
      Emit(Pop(Rbx));
      Emit(Pop(Rax));
      match op {
        case Add => Emit(AddReg(Rbx, Rax));
        case Sub => Emit(SubReg(Rbx, Rax));
        case Mul => Emit(ImulReg(Rbx, Rax));
        case Div =>
          Emit(Cqo);
          Emit(Idiv(Rbx));
      }
      Emit(PushReg(Rax));
    }

    /** `visit(RelationalCondition)` after its operands: compare, take two
        labels, and push 1 at the first or 0 and jump to the second. */
    method EmitComparison(op: RelOp)
      modifies this
      ensures asm == old(asm) + RelationalTail(op, old(labelCounter), old(labelCounter) + 1)
      ensures labelCounter == old(labelCounter) + 2
    {
      EmitAll([Pop(Rbx), Pop(Rax), Cmp(Rbx, Rax)]);
      var trueLabel := NewLabel();
      var endLabel := NewLabel();
      var jump: Jump;
      match op {
        case Eq => jump := Je;
        case Ne => jump := Jne;
        case Lt => jump := Jl;
        case Le => jump := Jle;
        case Gt => jump := Jg;
        case Ge => jump := Jge;
      }
      EmitAll([Jcc(jump, trueLabel), PushImm(0), Jmp(endLabel), Def(trueLabel), PushImm(1), Def(endLabel)]);
      assert jump == JumpFor(op);
      Assoc(old(asm), [Pop(Rbx), Pop(Rax), Cmp(Rbx, Rax)], [Jcc(jump, trueLabel), PushImm(0), Jmp(endLabel), Def(trueLabel), PushImm(1), Def(endLabel)]);
    }

    /** `visit(ReadStatement)` per name, after the frame walk. */
    method EmitScanf(offset: int)
      modifies this
      ensures asm == old(asm) + [Lea(offset, Rbx, Rsi), LeaFormat(FmtIn, Rdi), MovImm(0, Rax), CallExtern(Scanf)]
      ensures labelCounter == old(labelCounter)
    {
      Emit(Lea(offset, Rbx, Rsi));
      Emit(LeaFormat(FmtIn, Rdi));
      Emit(MovImm(0, Rax));
      Emit(CallExtern(Scanf));
    }

    /** `visit(WriteStatement)` per expression, after its value. */
    method EmitPrintf()
      modifies this
      ensures asm == old(asm) + [Pop(Rsi), LeaFormat(FmtOut, Rdi), MovImm(0, Rax), CallExtern(Printf)]
      ensures labelCounter == old(labelCounter)
    {
      Emit(Pop(Rsi));
      Emit(LeaFormat(FmtOut, Rdi));
      Emit(MovImm(0, Rax));
      Emit(CallExtern(Printf));
    }

    // The visits

    /** `visit(Program)`. */
    method VisitProgram(p: Program) returns (ok: bool)
      requires symbolTable.Valid()
      modifies this, symbolTable
      ensures symbolTable.Valid()
      ensures var g := GenProgram(old(symbolTable.State()), old(labelCounter), p);
              ok == g.Some? &&
              (ok ==> symbolTable.State() == g.value.0 && asm == old(asm) + g.value.1 && labelCounter == g.value.2)
    {
      ghost var t0 := symbolTable.State();
      ghost var k0 := labelCounter;
      ProgramGen(t0, k0, p);
      EmitHeader();
      assert symbolTable.State() == t0 && labelCounter == k0;
      ghost var g := GenBlock(t0, k0, p.block);
      ok := VisitBlock(p.block);
      if !ok {
        return;
      }
      EmitExit();
      Assoc(old(asm), Header(), g.value.1);
      Assoc(old(asm), Header() + g.value.1, [MovImm(0, Rax), Instr.Leave, Ret]);
    }

    /** `visit(Block)`: the frame, the jump over the procedures, the
        procedures, and the statement at the block's label. */
    method VisitBlock(b: Block) returns (ok: bool)
      requires symbolTable.Valid()
      modifies this, symbolTable
      ensures symbolTable.Valid()
      ensures var g := GenBlock(old(symbolTable.State()), old(labelCounter), b);
              ok == g.Some? &&
              (ok ==> symbolTable.State() == g.value.0 && asm == old(asm) + g.value.1 && labelCounter == g.value.2)
      decreases b, 1
    {
      ghost var t0 := symbolTable.State();
      ghost var k0 := labelCounter;
      var localsSize := symbolTable.GetLocalsSize();
      var startLabel := EmitFrame(localsSize);
      ghost var frame := FrameCode(LocalsSize(t0), k0);
      BlockGen(t0, k0, b);
      ok := VisitProcedures(b);
      if !ok {
        return;
      }
      ghost var procs := GenProcs(t0, b, 0, k0 + 1).value;
      EmitLabel(startLabel);
      assert symbolTable.State() == procs.0 && labelCounter == procs.2;
      ghost var g := GenStmt(EnvOf(procs.0), Level(procs.0), procs.2, b.stmt);
      ok := VisitStatement(b.stmt);
      if !ok {
        return;
      }
      ghost var body := g.value;
      Assoc(old(asm), frame + procs.1 + [Def(Numbered(k0))], body.0);
      Assoc(old(asm), frame + procs.1, [Def(Numbered(k0))]);
      Assoc(old(asm), frame, procs.1);
    }

    /** The loop of `visit(Block)` over the block's procedures, each in turn. */
    method VisitProcedures(b: Block) returns (ok: bool)
      requires symbolTable.Valid()
      modifies this, symbolTable
      ensures symbolTable.Valid()
      ensures var g := GenProcs(old(symbolTable.State()), b, 0, old(labelCounter));
              ok == g.Some? &&
              (ok ==> symbolTable.State() == g.value.0 && asm == old(asm) + g.value.1 && labelCounter == g.value.2)
      decreases b, 0
    {
      ghost var t0 := symbolTable.State();
      ghost var k0 := labelCounter;
      ghost var done: seq<Instr> := [];
      PrependNothing(GenProcs(t0, b, 0, k0));
      for i := 0 to |b.procs|
        invariant symbolTable.Valid()
        invariant asm == old(asm) + done
        invariant GenProcs(t0, b, 0, k0) == Prepend(done, GenProcs(symbolTable.State(), b, i, labelCounter))
      {
        ghost var t := symbolTable.State();
        ghost var k := labelCounter;
        ProcsStep(t, b, i, k);
        ok := VisitProcedure(b.procs[i]);
        if !ok {
          return;
        }
        ghost var pc := GenProc(t, k, b.procs[i]).value;
        PrependTwice(done, pc.1, GenProcs(pc.0, b, i + 1, pc.2));
        Assoc(old(asm), done, pc.1);
        done := done + pc.1;
      }
      assert done + [] == done;
      ok := true;
    }

    /** `visit(ProcedureDeclaration)`: entry label and frame, the body in the
        procedure's own scope, `leave; ret`. */
    method VisitProcedure(p: ProcDecl) returns (ok: bool)
      requires symbolTable.Valid()
      modifies this, symbolTable
      ensures symbolTable.Valid()
      ensures var g := GenProc(old(symbolTable.State()), old(labelCounter), p);
              ok == g.Some? &&
              (ok ==> symbolTable.State() == g.value.0 && asm == old(asm) + g.value.1 && labelCounter == g.value.2)
      decreases p.body, 2
    {
      ghost var t0 := symbolTable.State();
      ghost var k0 := labelCounter;
      ProcGen(t0, k0, p);
      EmitPrologue(p.name);
      var _ := symbolTable.EnterNextChildScope();
      ghost var t1 := symbolTable.State();
      ok := VisitBlock(p.body);
      if !ok {
        return;
      }
      ghost var body := GenBlock(t1, k0, p.body).value;
      var _ := symbolTable.ExitScope();
      EmitEpilogue();
      Assoc(old(asm), Prologue(p.name) + body.1, [Instr.Leave, Ret]);
      Assoc(old(asm), Prologue(p.name), body.1);
    }

    /** A statement, in the current scope. */
    method VisitStatement(st: Statement) returns (ok: bool)
      requires symbolTable.Valid()
      modifies this
      ensures var g := GenStmt(EnvOf(old(symbolTable.State())), Level(old(symbolTable.State())), old(labelCounter), st);
              ok == g.Some? && (ok ==> asm == old(asm) + g.value.0 && labelCounter == g.value.1)
      decreases st, 2
    {
      match st
      case Assignment(x, e) => ok := VisitAssignment(x, e);
      case Call(x) => ok := VisitCall(x);
      case Begin(body) => ok := VisitBegin(body);
      case If(c, th, el) =>
        ok := VisitIf(c, th, el);
        IfGen(EnvOf(old(symbolTable.State())), Level(old(symbolTable.State())), old(labelCounter), c, th, el);
      case While(c, d) =>
        ok := VisitWhile(c, d);
        WhileGen(EnvOf(old(symbolTable.State())), Level(old(symbolTable.State())), old(labelCounter), c, d);
      case Read(names) => ok := VisitRead(names);
      case Write(es) => ok := VisitWrite(es);
      case Skip => ok := true;
    }

    /** `visit(AssignmentStatement)`: the value, then the store into the
        target's slot in its frame. */
    method VisitAssignment(x: string, e: Expr) returns (ok: bool)
      requires symbolTable.Valid()
      modifies this
      ensures var g := GenStmt(EnvOf(old(symbolTable.State())), Level(old(symbolTable.State())), old(labelCounter), Assignment(x, e));
              ok == g.Some? && (ok ==> asm == old(asm) + g.value.0 && labelCounter == g.value.1)
    {
      ok := VisitExpression(e);
      if !ok {
        return;
      }
      var symbol := symbolTable.Lookup(x);
      LookupIsFind(symbolTable.State(), x);
      if symbol.None? {
        return false;
      }
      ghost var env := EnvOf(symbolTable.State());
      ghost var level := Level(symbolTable.State());
      ghost var ce := GenExpr(env, level, e).value;
      ghost var walk := WalkTo(level, env[x]);
      Emit(Pop(Rax));
      LoadFramePointer(symbol.value.nestingLevel);
      Emit(Store(Rax, symbol.value.offset, Rbx));
      Assoc(old(asm) + ce, [Pop(Rax)], walk);
      Assoc(old(asm) + ce, [Pop(Rax)] + walk, [Store(Rax, env[x].offset, Rbx)]);
      Assoc(old(asm), ce, [Pop(Rax)] + walk + [Store(Rax, env[x].offset, Rbx)]);
      Assoc(ce, [Pop(Rax)] + walk, [Store(Rax, env[x].offset, Rbx)]);
      Assoc(ce, [Pop(Rax)], walk);
    }

    /** `visit(CallStatement)`: the callee's static link in `%r10`. */
    method VisitCall(x: string) returns (ok: bool)
      requires symbolTable.Valid()
      modifies this
      ensures var g := GenStmt(EnvOf(old(symbolTable.State())), Level(old(symbolTable.State())), old(labelCounter), Call(x));
              ok == g.Some? && (ok ==> asm == old(asm) + g.value.0 && labelCounter == g.value.1)
    {
      var symbol := symbolTable.Lookup(x);
      LookupIsFind(symbolTable.State(), x);
      if symbol.None? {
        return false;
      }
      LoadFramePointer(symbol.value.nestingLevel);
      Emit(Mov(Rbx, R10));
      Emit(CallLabel(ProcEntry(x)));
      ok := true;
    }

    /** `visit(BeginStatement)`: the statements in order. */
    method VisitBegin(body: seq<Statement>) returns (ok: bool)
      requires symbolTable.Valid()
      modifies this
      ensures var g := GenStmt(EnvOf(old(symbolTable.State())), Level(old(symbolTable.State())), old(labelCounter), Begin(body));
              ok == g.Some? && (ok ==> asm == old(asm) + g.value.0 && labelCounter == g.value.1)
      decreases Begin(body), 0
    {
      ghost var env := EnvOf(symbolTable.State());
      ghost var level := Level(symbolTable.State());
      ghost var k0 := labelCounter;
      for i := 0 to |body|
        invariant GenStmts(env, level, k0, body[..i]).Some?
        invariant asm == old(asm) + GenStmts(env, level, k0, body[..i]).value.0
        invariant labelCounter == GenStmts(env, level, k0, body[..i]).value.1
      {
        ghost var front := GenStmts(env, level, k0, body[..i]).value;
        StmtsStep(env, level, k0, body, i);
        ok := VisitStatement(body[i]);
        if !ok {
          StmtsPrefixFails(env, level, k0, body, i + 1);
          return;
        }
        ghost var last := GenStmt(env, level, front.1, body[i]).value;
        Assoc(old(asm), front.0, last.0);
      }
      assert body[..|body|] == body;
      ok := true;
    }

    /** `visit(IfStatement)`: labels for ELSE and end before the condition. */
    method VisitIf(c: Condition, th: Statement, el: Option<Statement>) returns (ok: bool)
      requires symbolTable.Valid()
      modifies this
      ensures var env, level, k := EnvOf(old(symbolTable.State())), Level(old(symbolTable.State())), old(labelCounter);
              var cc := GenCond(env, level, k + 2, c);
              var ct := if cc.Some? then GenStmt(env, level, cc.value.1, th) else None;
              var ce := if ct.Some? then GenElse(env, level, ct.value.1, el) else None;
              ok == ce.Some? &&
              (ok ==> asm == old(asm) + IfCode(k, cc.value.0, ct.value.0, ce.value.0) && labelCounter == ce.value.1)
      decreases If(c, th, el), 1
    {
      ghost var env := EnvOf(symbolTable.State());
      ghost var level := Level(symbolTable.State());
      ghost var k0 := labelCounter;
      var elseLabel := NewLabel();
      var endLabel := NewLabel();
      ok := VisitCondition(c);
      if !ok {
        return;
      }
      ghost var cc := GenCond(env, level, k0 + 2, c).value;
      EmitBranchIfFalse(elseLabel);
      ok := VisitBranches(c, th, el, elseLabel, endLabel);
      if ok {
        ghost var ct := GenStmt(env, level, cc.1, th).value;
        ghost var ce := GenElse(env, level, ct.1, el).value;
        IfAsm(old(asm), k0, cc.0, ct.0, ce.0);
      }
    }

    /** The rest of `visit(IfStatement)` once the condition and the branch to
        the ELSE label are out: the THEN part, the jump to the end, the ELSE
        label, the ELSE part and the end label. */
    method VisitBranches(ghost c: Condition, th: Statement, el: Option<Statement>, elseLabel: Label, endLabel: Label)
      returns (ok: bool)
      requires symbolTable.Valid()
      modifies this
      ensures var env, level := EnvOf(old(symbolTable.State())), Level(old(symbolTable.State()));
              var ct := GenStmt(env, level, old(labelCounter), th);
              var ce := if ct.Some? then GenElse(env, level, ct.value.1, el) else None;
              ok == ce.Some? &&
              (ok ==> asm == old(asm) + ct.value.0 + [Jmp(endLabel), Def(elseLabel)] + ce.value.0 + [Def(endLabel)]
                      && labelCounter == ce.value.1)
      decreases If(c, th, el), 0
    {
      ok := VisitStatement(th);
      if !ok {
        return;
      }
      EmitAll([Jmp(endLabel), Def(elseLabel)]);
      ok := VisitElse(el);
      if !ok {
        return;
      }
      EmitLabel(endLabel);
    }

    /** The ELSE branch of `visit(IfStatement)`, visited when present. */
    method VisitElse(el: Option<Statement>) returns (ok: bool)
      requires symbolTable.Valid()
      modifies this
      ensures var g := GenElse(EnvOf(old(symbolTable.State())), Level(old(symbolTable.State())), old(labelCounter), el);
              ok == g.Some? && (ok ==> asm == old(asm) + g.value.0 && labelCounter == g.value.1)
      decreases el, 0
    {
      if el.Some? {
        ok := VisitStatement(el.value);
      } else {
        ok := true;
      }
    }

    /** `visit(WhileStatement)`: labels for the test and the end. */
    method VisitWhile(c: Condition, d: Statement) returns (ok: bool)
      requires symbolTable.Valid()
      modifies this
      ensures var env, level, k := EnvOf(old(symbolTable.State())), Level(old(symbolTable.State())), old(labelCounter);
              var cc := GenCond(env, level, k + 2, c);
              var cd := if cc.Some? then GenStmt(env, level, cc.value.1, d) else None;
              ok == cd.Some? && (ok ==> asm == old(asm) + WhileCode(k, cc.value.0, cd.value.0) && labelCounter == cd.value.1)
      decreases While(c, d), 1
    {
      ghost var env := EnvOf(symbolTable.State());
      ghost var level := Level(symbolTable.State());
      ghost var k0 := labelCounter;
      var startLabel := NewLabel();
      var endLabel := NewLabel();
      EmitLabel(startLabel);
      ok := VisitCondition(c);
      if !ok {
        return;
      }
      ghost var cc := GenCond(env, level, k0 + 2, c).value;
      EmitBranchIfFalse(endLabel);
      ok := VisitLoopBody(c, d, startLabel, endLabel);
      if ok {
        ghost var cd := GenStmt(env, level, cc.1, d).value;
        WhileAsm(old(asm), k0, cc.0, cd.0);
      }
    }

    /** The rest of `visit(WhileStatement)` once the condition and the branch
        to the end label are out: the body, the jump back and the end label. */
    method VisitLoopBody(ghost c: Condition, d: Statement, startLabel: Label, endLabel: Label) returns (ok: bool)
      requires symbolTable.Valid()
      modifies this
      ensures var g := GenStmt(EnvOf(old(symbolTable.State())), Level(old(symbolTable.State())), old(labelCounter), d);
              ok == g.Some? &&
              (ok ==> asm == old(asm) + g.value.0 + [Jmp(startLabel), Def(endLabel)] && labelCounter == g.value.1)
      decreases While(c, d), 0
    {
      ok := VisitStatement(d);
      if ok {
        EmitAll([Jmp(startLabel), Def(endLabel)]);
      }
    }

    /** `visit(ReadStatement)`: per name, its slot's address and `scanf`. */
    method VisitRead(names: seq<string>) returns (ok: bool)
      requires symbolTable.Valid()
      modifies this
      ensures var g := GenStmt(EnvOf(old(symbolTable.State())), Level(old(symbolTable.State())), old(labelCounter), Read(names));
              ok == g.Some? && (ok ==> asm == old(asm) + g.value.0 && labelCounter == g.value.1)
    {
      ghost var env := EnvOf(symbolTable.State());
      ghost var level := Level(symbolTable.State());
      for i := 0 to |names|
        invariant ReadCode(env, level, names[..i]).Some?
        invariant asm == old(asm) + ReadCode(env, level, names[..i]).value
        invariant labelCounter == old(labelCounter)
      {
        ghost var front := ReadCode(env, level, names[..i]).value;
        var symbol := symbolTable.Lookup(names[i]);
        LookupIsFind(symbolTable.State(), names[i]);
        if symbol.None? {
          assert names[..i + 1][..i] == names[..i];
          ReadPrefixFails(env, level, names, i + 1);
          return false;
        }
        ghost var w := WalkTo(level, env[names[i]]);
        ghost var scan := [Lea(env[names[i]].offset, Rbx, Rsi), LeaFormat(FmtIn, Rdi), MovImm(0, Rax), CallExtern(Scanf)];
        LoadFramePointer(symbol.value.nestingLevel);
        EmitScanf(symbol.value.offset);
        ReadStep(env, level, names, i);
        Assoc(old(asm) + front, w, scan);
        Assoc(old(asm), front, w + scan);
        Assoc(front, w, scan);
      }
      assert names[..|names|] == names;
      ok := true;
    }

    /** `visit(WriteStatement)`: per expression, its value and `printf`. */
    method VisitWrite(es: seq<Expr>) returns (ok: bool)
      requires symbolTable.Valid()
      modifies this
      ensures var g := GenStmt(EnvOf(old(symbolTable.State())), Level(old(symbolTable.State())), old(labelCounter), Write(es));
              ok == g.Some? && (ok ==> asm == old(asm) + g.value.0 && labelCounter == g.value.1)
    {
      ghost var env := EnvOf(symbolTable.State());
      ghost var level := Level(symbolTable.State());
      for i := 0 to |es|
        invariant WriteCode(env, level, es[..i]).Some?
        invariant asm == old(asm) + WriteCode(env, level, es[..i]).value
        invariant labelCounter == old(labelCounter)
      {
        ghost var front := WriteCode(env, level, es[..i]).value;
        ok := VisitExpression(es[i]);
        if !ok {
          assert es[..i + 1][..i] == es[..i];
          WritePrefixFails(env, level, es, i + 1);
          return;
        }
        ghost var ce := GenExpr(env, level, es[i]).value;
        EmitPrintf();
        WriteStep(env, level, es, i);
        Assoc(old(asm) + front, ce, [Pop(Rsi), LeaFormat(FmtOut, Rdi), MovImm(0, Rax), CallExtern(Printf)]);
        Assoc(old(asm), front, ce + [Pop(Rsi), LeaFormat(FmtOut, Rdi), MovImm(0, Rax), CallExtern(Printf)]);
        Assoc(front, ce, [Pop(Rsi), LeaFormat(FmtOut, Rdi), MovImm(0, Rax), CallExtern(Printf)]);
      }
      assert es[..|es|] == es;
      ok := true;
    }

    /** A condition leaves its truth value, 1 or 0, on the stack. */
    method VisitCondition(c: Condition) returns (ok: bool)
      requires symbolTable.Valid()
      modifies this
      ensures var g := GenCond(EnvOf(old(symbolTable.State())), Level(old(symbolTable.State())), old(labelCounter), c);
              ok == g.Some? && (ok ==> asm == old(asm) + g.value.0 && labelCounter == g.value.1)
    {
      match c
      case Odd(e) => ok := VisitOdd(e);
      case Relational(l, op, r) => ok := VisitRelational(l, op, r);
    }

    /** `visit(OddCondition)`: the low bit of the value. */
    method VisitOdd(e: Expr) returns (ok: bool)
      requires symbolTable.Valid()
      modifies this
      ensures var g := GenCond(EnvOf(old(symbolTable.State())), Level(old(symbolTable.State())), old(labelCounter), Odd(e));
              ok == g.Some? && (ok ==> asm == old(asm) + g.value.0 && labelCounter == g.value.1)
    {
      ghost var env := EnvOf(symbolTable.State());
      ghost var level := Level(symbolTable.State());
      ok := VisitExpression(e);
      if !ok {
        return;
      }
      ghost var ce := GenExpr(env, level, e).value;
      Emit(Pop(Rax));
      Emit(AndOne(Rax));
      Emit(PushReg(Rax));
      Assoc(old(asm), ce, [Pop(Rax), AndOne(Rax), PushReg(Rax)]);
      assert GenCond(env, level, old(labelCounter), Odd(e)) == Some((ce + [Pop(Rax), AndOne(Rax), PushReg(Rax)], old(labelCounter)));
    }

    /** `visit(RelationalCondition)`. */
    method VisitRelational(l: Expr, op: RelOp, r: Expr) returns (ok: bool)
      requires symbolTable.Valid()
      modifies this
      ensures var g := GenCond(EnvOf(old(symbolTable.State())), Level(old(symbolTable.State())), old(labelCounter), Relational(l, op, r));
              ok == g.Some? && (ok ==> asm == old(asm) + g.value.0 && labelCounter == g.value.1)
    {
      ghost var env := EnvOf(symbolTable.State());
      ghost var level := Level(symbolTable.State());
      ghost var k := labelCounter;
      RelationalGen(env, level, k, l, op, r);
      ok := VisitExpression(l);
      if !ok {
        return;
      }
      ghost var cl := GenExpr(env, level, l).value;
      assert EnvOf(symbolTable.State()) == env && Level(symbolTable.State()) == level;
      ghost var gr := GenExpr(env, level, r);
      ok := VisitExpression(r);
      if !ok {
        return;
      }
      ghost var cr := gr.value;
      assert labelCounter == k;
      EmitComparison(op);
      Assoc(old(asm), cl + cr, RelationalTail(op, k, k + 1));
      Assoc(old(asm), cl, cr);
    }

    /** An expression leaves its value on the stack. */
    method VisitExpression(e: Expr) returns (ok: bool)
      requires symbolTable.Valid()
      modifies this
      ensures labelCounter == old(labelCounter)
      ensures var g := GenExpr(EnvOf(old(symbolTable.State())), Level(old(symbolTable.State())), e);
              ok == g.Some? && (ok ==> asm == old(asm) + g.value)
      decreases e, 1
    {
      match e
      case Binary(op, l, r) => ok := VisitBinary(op, l, r);
      case Unary(uop, x) => ok := VisitUnary(uop, x);
      case Number(v) => ok := VisitNumber(v);
      case Variable(x) => ok := VisitVariable(x);
    }

    /** `visit(BinaryExpression)`: both operands, popped right then left. */
    method VisitBinary(op: BinaryOp, l: Expr, r: Expr) returns (ok: bool)
      requires symbolTable.Valid()
      modifies this
      ensures labelCounter == old(labelCounter)
      ensures var g := GenExpr(EnvOf(old(symbolTable.State())), Level(old(symbolTable.State())), Binary(op, l, r));
              ok == g.Some? && (ok ==> asm == old(asm) + g.value)
      decreases Binary(op, l, r), 0
    {
      ghost var env := EnvOf(symbolTable.State());
      ghost var level := Level(symbolTable.State());
      BinaryGen(env, level, op, l, r);
      ok := VisitExpression(l);
      if !ok {
        return;
      }
      ghost var cl := GenExpr(env, level, l).value;
      assert EnvOf(symbolTable.State()) == env && Level(symbolTable.State()) == level;
      ghost var gr := GenExpr(env, level, r);
      ok := VisitExpression(r);
      if !ok {
        return;
      }
      ghost var cr := gr.value;
      EmitOperator(op);
      Assoc(old(asm), cl + cr, BinaryTail(op));
      Assoc(old(asm), cl, cr);
    }

    /** `visit(UnaryExpression)`: a minus negates, a plus emits nothing. */
    method VisitUnary(uop: UnaryOp, x: Expr) returns (ok: bool)
      requires symbolTable.Valid()
      modifies this
      ensures labelCounter == old(labelCounter)
      ensures var g := GenExpr(EnvOf(old(symbolTable.State())), Level(old(symbolTable.State())), Unary(uop, x));
              ok == g.Some? && (ok ==> asm == old(asm) + g.value)
      decreases Unary(uop, x), 0
    {
      ghost var env := EnvOf(symbolTable.State());
      ghost var level := Level(symbolTable.State());
      ok := VisitExpression(x);
      if !ok {
        return;
      }
      ghost var cx := GenExpr(env, level, x).value;
      if uop == Minus {
        Emit(Pop(Rax));
        Emit(Neg(Rax));
        Emit(PushReg(Rax));
        Assoc(old(asm), cx, [Pop(Rax), Neg(Rax), PushReg(Rax)]);
      }
    }

    /** `visit(NumberLiteral)`. */
    method VisitNumber(v: int) returns (ok: bool)
      requires symbolTable.Valid()
      modifies this
      ensures labelCounter == old(labelCounter)
      ensures var g := GenExpr(EnvOf(old(symbolTable.State())), Level(old(symbolTable.State())), Number(v));
              ok == g.Some? && (ok ==> asm == old(asm) + g.value)
    {
      Emit(MovImm(v, Rax));
      Emit(PushReg(Rax));
      ok := true;
    }

    /** `visit(VariableAccess)`: a CONST as an immediate, anything else
        loaded from its frame. */
    method VisitVariable(x: string) returns (ok: bool)
      requires symbolTable.Valid()
      modifies this
      ensures labelCounter == old(labelCounter)
      ensures var g := GenExpr(EnvOf(old(symbolTable.State())), Level(old(symbolTable.State())), Variable(x));
              ok == g.Some? && (ok ==> asm == old(asm) + g.value)
    {
      var symbol := symbolTable.Lookup(x);
      LookupIsFind(symbolTable.State(), x);
      if symbol.None? {
        return false;
      }
      var s := symbol.value;
      if s.kind == Const {
        Emit(MovImm(s.value.GetOr(0), Rax));
        Emit(PushReg(Rax));
      } else {
        LoadFramePointer(s.nestingLevel);
        Emit(Load(s.offset, Rbx, Rax));
        Emit(PushReg(Rax));
      }
      ok := true;
    }
  }

  // ---------------------------------------------------------------------
  // The driver

  /** Phase 3: a new table filled by the declaration pass. */
  method BuildSymbolTable(p: Program) returns (symbolTable: SymbolTable)
    ensures fresh(symbolTable) && symbolTable.Valid()
    ensures symbolTable.State() == DeclareBlock(NewTable(), p.block)
  {
    symbolTable := new SymbolTable();
    var builder := new SymbolTableBuilder(symbolTable);
    builder.Walk(p);
  }

  /** Phase 4: reset the table and count the semantic errors. */
  method Analyse(symbolTable: SymbolTable, p: Program) returns (errors: nat)
    requires symbolTable.Valid()
    modifies symbolTable
    ensures symbolTable.Valid()
    ensures (symbolTable.State(), errors) == CheckBlock(ResetCursors(old(symbolTable.State())), p.block)
  {
    symbolTable.Reset();
    var checker := new SemanticChecker(symbolTable);
    checker.Walk(p);
    errors := checker.GetErrorCount();
  }

  /** Phase 5: reset the table and generate; no text when a name does not
      resolve. */
  method GenerateCode(symbolTable: SymbolTable, p: Program) returns (assembly: Option<string>)
    requires symbolTable.Valid()
    modifies symbolTable
    ensures var g := GenProgram(ResetCursors(old(symbolTable.State())), 0, p);
            assembly == if g.Some? then Some(Assembly(g.value.1)) else None
  {
    symbolTable.Reset();
    ghost var t := symbolTable.State();
    var generator := new CodeGenerator(symbolTable);
    assert generator.symbolTable.State() == t;
    var ok := generator.VisitProgram(p);
    ghost var g := GenProgram(t, 0, p);
    assert ok == g.Some?;
    if !ok {
      return None;
    }
    assert generator.asm == g.value.1;
    var text := generator.GetAssembly();
    return Some(text);
  }

  /** The compiler's phases on one program: build the table, check, stop on
      any error, and generate.  Its output is the text of the code `Compile`
      describes. */
  method RunCompiler(p: Program) returns (assembly: Option<string>)
    ensures assembly == if Compile(p).Some? then Some(Assembly(Compile(p).value)) else None
  {
    var symbolTable := BuildSymbolTable(p);
    var errors := Analyse(symbolTable, p);
    if errors > 0 {
      return None;
    }
    assembly := GenerateCode(symbolTable, p);
  }
}

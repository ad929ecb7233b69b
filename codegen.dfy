/** The code generator (`codegen/ASTCodeGenerator.java`): a visitor that
    walks the typed tree a third time, following the procedures into their
    scopes as the checker does, and emits x86-64 code for a stack machine:
    every expression and every condition leaves exactly one value on the
    stack. */
module CodeGen {
  import opened Wrappers
  import opened Symbols
  import opened Ast
  import opened ScopeTree
  import opened SymbolTables
  import opened Declarations
  import opened Traversal
  import opened Checking
  import opened Machine

  // ---------------------------------------------------------------------
  // Stack alignment

  /** Java's `%`: the remainder takes the sign of the dividend. */
  function JavaRem(a: int, b: int): int
    requires b != 0
  {
    a - b * TDiv(a, b)
  }

  /** The padding added to a block's locals. */
  function Padding(localsSize: int): int {
    JavaRem(16 - JavaRem(localsSize + 8, 16), 16)
  }

  /** `localsSize + pad` bytes of locals, with the static link's 8, fill
      whole 16-byte units. */
  predicate Aligned(localsSize: int, pad: int) {
    (localsSize + pad + 8) % 16 == 0
  }

  /** The padding is the least amount that, with the 8 bytes of the static
      link, brings the locals to a multiple of 16; the frame therefore never
      ends up empty, and `sub` is always emitted. */
  lemma PaddingAligns(localsSize: int)
    requires localsSize >= 0
    ensures 0 <= Padding(localsSize) < 16
    ensures Aligned(localsSize, Padding(localsSize))
    ensures forall q :: 0 <= q < Padding(localsSize) ==> !Aligned(localsSize, q)
    ensures localsSize + Padding(localsSize) > 0
  {
    var n := localsSize + 8;
    var q, r := n / 16, n % 16;
    assert n == 16 * q + r && 0 <= r < 16;
    assert Abs(n) / Abs(16) == q;
    assert JavaRem(n, 16) == r;
    var p := if r == 0 then 0 else 16 - r;
    if r == 0 {
      assert TDiv(16, 16) == 1;
    } else {
      assert Abs(16 - r) / Abs(16) == 0;
    }
    assert Padding(localsSize) == p;
    assert localsSize + p + 8 == 16 * (if r == 0 then q else q + 1);
    forall q' | 0 <= q' < p ensures !Aligned(localsSize, q') {
      assert localsSize + q' + 8 == 16 * q + (r + q') && 0 < r + q' < 16;
    }
  }

  // ---------------------------------------------------------------------
  // The static-link walk

  /** `loadFramePointer`: how many links are followed. */
  function Hops(currentLevel: int, targetLevel: int): nat {
    if currentLevel > targetLevel then currentLevel - targetLevel else 0
  }

  /** `mov %rbp, %rbx` and then one `mov -8(%rbx), %rbx` per hop. */
  function FrameWalk(hops: nat): (code: seq<Instr>)
    ensures |code| == hops + 1 && code[0] == Mov(Rbp, Rbx)
    ensures forall i :: 1 <= i < |code| ==> code[i] == Load(-8, Rbx, Rbx)
  {
    if hops == 0 then [Mov(Rbp, Rbx)] else FrameWalk(hops - 1) + [Load(-8, Rbx, Rbx)]
  }

  /** The frame `hops` static links up from the current one: each frame
      keeps its static link 8 bytes below its base. */
  function FrameAt(m: Cpu, hops: nat): Option<int> {
    if hops == 0 then Some(Get(m, Rbp))
    else match FrameAt(m, hops - 1)
      case None => None
      case Some(fp) => if fp - 8 in m.mem then Some(m.mem[fp - 8]) else None
  }

  lemma {:induction false} FrameAtFrame(m: Cpu, m': Cpu, hops: nat)
    requires m'.mem == m.mem && Get(m', Rbp) == Get(m, Rbp)
    ensures FrameAt(m', hops) == FrameAt(m, hops)
  {
    if hops > 0 { FrameAtFrame(m, m', hops - 1); }
  }

  predicate NoJumps(code: seq<Instr>) {
    forall i :: 0 <= i < |code| ==> !code[i].Jmp? && !code[i].Jcc? && !code[i].Def?
  }

  lemma NoJumpsAppend(a: seq<Instr>, b: seq<Instr>)
    requires NoJumps(a) && NoJumps(b)
    ensures NoJumps(a + b)
  {
    forall i | 0 <= i < |a + b| ensures !(a + b)[i].Jmp? && !(a + b)[i].Jcc? && !(a + b)[i].Def? {
      if i >= |a| { assert (a + b)[i] == b[i - |a|]; }
    }
  }

  lemma NoJumpsClosed(a: seq<Instr>)
    requires NoJumps(a)
    ensures Closed(a)
  {
    StraightClosed(a);
  }

  lemma SetTwice(m: Cpu, r: Reg, a: int, b: int)
    ensures Set(Set(m, r, a), r, b) == Set(m, r, b)
  {
    assert Set(Set(m, r, a), r, b).regs == Set(m, r, b).regs;
  }

  /** Running the walk leaves in `%rbx` the frame `hops` links up, and
      faults exactly when a link on the way is missing. */
  lemma {:induction false} FrameWalkReaches(hops: nat, m: Cpu)
    ensures var r := Exec(FrameWalk(hops), m);
            && (r.Some? <==> FrameAt(m, hops).Some?)
            && (r.Some? ==> r.value == Set(m, Rbx, FrameAt(m, hops).value))
  {
    if hops == 0 {
      ExecOne(Mov(Rbp, Rbx), [], m);
    } else {
      var w := FrameWalk(hops - 1);
      FrameWalkReaches(hops - 1, m);
      assert NoJumps(w);
      NoJumpsClosed(w);
      ExecAppend(w, [Load(-8, Rbx, Rbx)], m);
      assert FrameWalk(hops) == w + [Load(-8, Rbx, Rbx)];
      if FrameAt(m, hops - 1).Some? {
        var fp := FrameAt(m, hops - 1).value;
        var m1 := Set(m, Rbx, fp);
        ExecOne(Load(-8, Rbx, Rbx), [], m1);
        assert [Load(-8, Rbx, Rbx)] + [] == [Load(-8, Rbx, Rbx)];
        assert Get(m1, Rbx) == fp;
        if fp - 8 in m.mem {
          SetTwice(m, Rbx, fp, m.mem[fp - 8]);
        }
      }
    }
  }

  // ---------------------------------------------------------------------
  // Expressions

  /** The value of an expression given the values of the names; None on a
      division by zero or a name without a value. */
  function Eval(vals: map<string, int>, e: Expr): Option<int> {
    match e
    case Binary(op, l, r) =>
      var a :- Eval(vals, l);
      var b :- Eval(vals, r);
      ApplyOp(op, a, b)
    case Unary(uop, x) =>
      var a :- Eval(vals, x);
      if uop == Minus then Some(-a) else Some(a)
    case Number(v) => Some(v)
    case Variable(x) => if x in vals then Some(vals[x]) else None
  }

  /** `a op b`, with `/` truncating toward zero; None for a division by zero. */
  function ApplyOp(op: BinaryOp, a: int, b: int): Option<int> {
    match op
    case Add => Some(a + b)
    case Sub => Some(a - b)
    case Mul => Some(a * b)
    case Div => if b == 0 then None else Some(TDiv(a, b))
  }

  /** The arithmetic after both operands have been popped. */
  function OpCode(op: BinaryOp): seq<Instr> {
    match op
    case Add => [AddReg(Rbx, Rax)]
    case Sub => [SubReg(Rbx, Rax)]
    case Mul => [ImulReg(Rbx, Rax)]
    case Div => [Cqo, Idiv(Rbx)]
  }

  /** Code for a name: a CONST is pushed as an immediate, anything else is
      loaded from its frame.  None when the name is not visible (the source
      dereferences the missing symbol). */
  function GenVariable(env: Env, level: int, x: string): Option<seq<Instr>> {
    if x !in env then None
    else
      var s := env[x];
      if s.kind == Const then Some([MovImm(s.value.GetOr(0), Rax), PushReg(Rax)])
      else Some(FrameWalk(Hops(level, s.nestingLevel)) + [Load(s.offset, Rbx, Rax), PushReg(Rax)])
  }

  function GenExpr(env: Env, level: int, e: Expr): Option<seq<Instr>> {
    match e
    case Binary(op, l, r) =>
      var cl :- GenExpr(env, level, l);
      var cr :- GenExpr(env, level, r);
      Some(cl + cr + [Pop(Rbx), Pop(Rax)] + OpCode(op) + [PushReg(Rax)])
    case Unary(uop, x) =>
      var cx :- GenExpr(env, level, x);
      if uop == Minus then Some(cx + [Pop(Rax), Neg(Rax), PushReg(Rax)]) else Some(cx)
    case Number(v) => Some([MovImm(v, Rax), PushReg(Rax)])
    case Variable(x) => GenVariable(env, level, x)
  }

  lemma {:induction false} GenExprNoJumps(env: Env, level: int, e: Expr)
    requires GenExpr(env, level, e).Some?
    ensures NoJumps(GenExpr(env, level, e).value)
  {
    match e
    case Binary(op, l, r) =>
      GenExprNoJumps(env, level, l);
      GenExprNoJumps(env, level, r);
      var cl, cr := GenExpr(env, level, l).value, GenExpr(env, level, r).value;
      NoJumpsAppend(cl, cr);
      NoJumpsAppend(cl + cr, [Pop(Rbx), Pop(Rax)]);
      NoJumpsAppend(cl + cr + [Pop(Rbx), Pop(Rax)], OpCode(op));
      NoJumpsAppend(cl + cr + [Pop(Rbx), Pop(Rax)] + OpCode(op), [PushReg(Rax)]);
    case Unary(uop, x) =>
      GenExprNoJumps(env, level, x);
      if uop == Minus {
        NoJumpsAppend(GenExpr(env, level, x).value, [Pop(Rax), Neg(Rax), PushReg(Rax)]);
      }
    case Number(_) =>
    case Variable(x) =>
      var s := env[x];
      if s.kind != Const {
        NoJumpsAppend(FrameWalk(Hops(level, s.nestingLevel)), [Load(s.offset, Rbx, Rax), PushReg(Rax)]);
      }
  }

  /** The machine holds the values `vals` gives the names visible in `env`:
      a CONST's value is its declared one, any other name's value sits at its
      offset in the frame of its declaring level. */
  ghost predicate Agree(env: Env, level: int, m: Cpu, vals: map<string, int>) {
    forall x :: x in env ==>
      && x in vals
      && (env[x].kind == Const ==> vals[x] == env[x].value.GetOr(0))
      && (env[x].kind != Const ==>
            && FrameAt(m, Hops(level, env[x].nestingLevel)).Some?
            && FrameAt(m, Hops(level, env[x].nestingLevel)).value + env[x].offset in m.mem
            && m.mem[FrameAt(m, Hops(level, env[x].nestingLevel)).value + env[x].offset] == vals[x])
  }

  lemma AgreeFrame(env: Env, level: int, m: Cpu, m': Cpu, vals: map<string, int>)
    requires Agree(env, level, m, vals) && m'.mem == m.mem && Get(m', Rbp) == Get(m, Rbp)
    ensures Agree(env, level, m', vals)
  {
    forall x | x in env && env[x].kind != Const
      ensures FrameAt(m', Hops(level, env[x].nestingLevel)) == FrameAt(m, Hops(level, env[x].nestingLevel))
    {
      FrameAtFrame(m, m', Hops(level, env[x].nestingLevel));
    }
  }

  /** What running an expression's code changes: one more value on the
      stack, the memory and the frame base as they were. */
  ghost predicate Pushed(m: Cpu, r: Option<Cpu>, v: int) {
    r.Some? && r.value.stack == m.stack + [v] && r.value.mem == m.mem && Get(r.value, Rbp) == Get(m, Rbp)
  }

  lemma ExecOne(i: Instr, rest: seq<Instr>, m: Cpu)
    requires !i.Def? && !i.Jmp? && !i.Jcc?
    ensures Exec([i] + rest, m) == Then(Step(m, i), rest)
  {
    assert ([i] + rest)[0] == i && ([i] + rest)[1..] == rest;
  }

  /** Pops right into `%rbx` and left into `%rax`, combines, pushes. */
  function BinaryTail(op: BinaryOp): seq<Instr> {
    [Pop(Rbx), Pop(Rax)] + OpCode(op) + [PushReg(Rax)]
  }

  /** With the two operands on top of the stack, the tail of a binary
      expression replaces them by `left op right`, and faults on a division
      by zero. */
  lemma BinaryTailComputes(op: BinaryOp, m: Cpu, a: int, b: int)
    ensures var r := Exec(BinaryTail(op), m.(stack := m.stack + [a, b]));
            && (ApplyOp(op, a, b).None? ==> r.None?)
            && (ApplyOp(op, a, b).Some? ==> Pushed(m, r, ApplyOp(op, a, b).value))
  {
    assert BinaryTail(op) == [Pop(Rbx), Pop(Rax)] + (OpCode(op) + [PushReg(Rax)]);
    PopsOperands(OpCode(op) + [PushReg(Rax)], m, a, b);
    OperatorComputes(op, Set(Set(m, Rbx, b), Rax, a), a, b);
  }

  /** The two pops put the right operand in `%rbx` and the left in `%rax`. */
  lemma PopsOperands(rest: seq<Instr>, m: Cpu, a: int, b: int)
    ensures Exec([Pop(Rbx), Pop(Rax)] + rest, m.(stack := m.stack + [a, b]))
            == Exec(rest, Set(Set(m, Rbx, b), Rax, a))
  {
    var m0 := m.(stack := m.stack + [a, b]);
    var rest1 := [Pop(Rax)] + rest;
    assert [Pop(Rbx), Pop(Rax)] + rest == [Pop(Rbx)] + rest1;
    ExecOne(Pop(Rbx), rest1, m0);
    assert (m.stack + [a, b])[..|m.stack| + 1] == m.stack + [a];
    var m1 := Set(m, Rbx, b).(stack := m.stack + [a]);
    assert Step(m0, Pop(Rbx)) == Some(m1);
    ExecOne(Pop(Rax), rest, m1);
    assert (m.stack + [a])[..|m.stack|] == m.stack;
    assert Step(m1, Pop(Rax)) == Some(Set(Set(m, Rbx, b), Rax, a));
  }

  lemma OperatorComputes(op: BinaryOp, m2: Cpu, a: int, b: int)
    requires Get(m2, Rax) == a && Get(m2, Rbx) == b
    ensures var r := Exec(OpCode(op) + [PushReg(Rax)], m2);
            && (ApplyOp(op, a, b).None? ==> r.None?)
            && (ApplyOp(op, a, b).Some? ==> Pushed(m2, r, ApplyOp(op, a, b).value))
  {
    match op
    case Add => ResultThenPush(AddReg(Rbx, Rax), m2, a + b);
    case Sub => ResultThenPush(SubReg(Rbx, Rax), m2, a - b);
    case Mul => ResultThenPush(ImulReg(Rbx, Rax), m2, a * b);
    case Div => DivisionComputes(m2, a, b);
  }

  /** An instruction that leaves `v` in `%rax`, followed by `push %rax`. */
  lemma ResultThenPush(i: Instr, m: Cpu, v: int)
    requires !i.Def? && !i.Jmp? && !i.Jcc? && Step(m, i) == Some(Set(m, Rax, v))
    ensures Pushed(m, Exec([i] + [PushReg(Rax)], m), v)
  {
    ExecOne(i, [PushReg(Rax)], m);
    assert [PushReg(Rax)] == [PushReg(Rax)] + [];
    ExecOne(PushReg(Rax), [], Set(m, Rax, v));
  }

  lemma DivisionComputes(m2: Cpu, a: int, b: int)
    requires Get(m2, Rax) == a && Get(m2, Rbx) == b
    ensures var r := Exec(OpCode(Div) + [PushReg(Rax)], m2);
            && (b == 0 ==> r.None?)
            && (b != 0 ==> Pushed(m2, r, TDiv(a, b)))
  {
    var push := [PushReg(Rax)];
    assert push == [PushReg(Rax)] + [];
    assert OpCode(Div) + push == [Cqo] + ([Idiv(Rbx)] + push);
    ExecOne(Cqo, [Idiv(Rbx)] + push, m2);
    var m3 := Set(m2, Rdx, if a < 0 then -1 else 0);
    ExecOne(Idiv(Rbx), push, m3);
    if b != 0 {
      ExecOne(PushReg(Rax), [], Set(Set(m3, Rax, TDiv(a, b)), Rdx, a - b * TDiv(a, b)));
    }
  }

  /** `pop %rax; neg %rax; push %rax` negates the top of the stack. */
  lemma NegateComputes(m: Cpu, a: int)
    ensures Pushed(m, Exec([Pop(Rax), Neg(Rax), PushReg(Rax)], m.(stack := m.stack + [a])), -a)
  {
    var m0 := m.(stack := m.stack + [a]);
    assert [Pop(Rax), Neg(Rax), PushReg(Rax)] == [Pop(Rax)] + ([Neg(Rax)] + [PushReg(Rax)]);
    ExecOne(Pop(Rax), [Neg(Rax)] + [PushReg(Rax)], m0);
    assert (m.stack + [a])[..|m.stack|] == m.stack;
    var m1 := Set(m, Rax, a);
    assert Step(m0, Pop(Rax)) == Some(m1);
    ResultThenPush(Neg(Rax), m1, -a);
  }

  /** Code without jumps runs to its end before what follows it. */
  lemma Sequence(c: seq<Instr>, rest: seq<Instr>, m: Cpu)
    requires NoJumps(c)
    ensures Exec(c + rest, m) == Then(Exec(c, m), rest)
  {
    NoJumpsClosed(c);
    ExecAppend(c, rest, m);
  }

  /** What an expression's code does, stated on the machine. */
  ghost predicate Computes(m: Cpu, r: Option<Cpu>, v: Option<int>) {
    && (v.None? ==> r.None?)
    && (v.Some? ==> Pushed(m, r, v.value))
  }

  /** An expression's code pushes the expression's value and nothing else:
      it leaves the rest of the stack, the memory and the frame base as they
      were, and it faults exactly when the expression divides by zero. */
  lemma {:induction false} ExprComputes(env: Env, level: int, e: Expr, m: Cpu, vals: map<string, int>)
    requires Agree(env, level, m, vals) && GenExpr(env, level, e).Some?
    ensures Computes(m, Exec(GenExpr(env, level, e).value, m), Eval(vals, e))
    decreases e, 1
  {
    match e
    case Binary(op, l, r) => BinaryComputes(env, level, op, l, r, m, vals);
    case Unary(uop, x) => UnaryComputes(env, level, uop, x, m, vals);
    case Number(v) => ResultThenPush(MovImm(v, Rax), m, v);
    case Variable(x) => VariableComputes(env, level, x, m, vals);
  }

  lemma {:induction false} BinaryComputes(env: Env, level: int, op: BinaryOp, l: Expr, r: Expr, m: Cpu, vals: map<string, int>)
    requires Agree(env, level, m, vals) && GenExpr(env, level, Binary(op, l, r)).Some?
    ensures Computes(m, Exec(GenExpr(env, level, Binary(op, l, r)).value, m), Eval(vals, Binary(op, l, r)))
    decreases Binary(op, l, r), 0
  {
    var cl, cr := GenExpr(env, level, l).value, GenExpr(env, level, r).value;
    assert GenExpr(env, level, Binary(op, l, r)).value == cl + (cr + BinaryTail(op));
    GenExprNoJumps(env, level, l);
    GenExprNoJumps(env, level, r);
    ExprComputes(env, level, l, m, vals);
    if Eval(vals, l).Some? {
      var m1 := Exec(cl, m).value;
      AgreeFrame(env, level, m, m1, vals);
      ExprComputes(env, level, r, m1, vals);
    }
    BinaryCode(cl, cr, op, m, Eval(vals, l), Eval(vals, r));
  }

  /** Two operands' jump-free code and the operator: the operator's result
      pushed, or a fault when either operand or the operator faults. */
  lemma BinaryCode(cl: seq<Instr>, cr: seq<Instr>, op: BinaryOp, m: Cpu, vl: Option<int>, vr: Option<int>)
    requires NoJumps(cl) && NoJumps(cr) && Computes(m, Exec(cl, m), vl)
    requires vl.Some? ==> Computes(Exec(cl, m).value, Exec(cr, Exec(cl, m).value), vr)
    ensures Computes(m, Exec(cl + (cr + BinaryTail(op)), m), if vl.Some? && vr.Some? then ApplyOp(op, vl.value, vr.value) else None)
  {
    Sequence(cl, cr + BinaryTail(op), m);
    if vl.Some? {
      var m1 := Exec(cl, m).value;
      Sequence(cr, BinaryTail(op), m1);
      if vr.Some? {
        var m2 := Exec(cr, m1).value;
        var mb := m2.(stack := m.stack);
        assert m2 == mb.(stack := mb.stack + [vl.value, vr.value]);
        BinaryTailComputes(op, mb, vl.value, vr.value);
      }
    }
  }

  lemma {:induction false} UnaryComputes(env: Env, level: int, uop: UnaryOp, x: Expr, m: Cpu, vals: map<string, int>)
    requires Agree(env, level, m, vals) && GenExpr(env, level, Unary(uop, x)).Some?
    ensures Computes(m, Exec(GenExpr(env, level, Unary(uop, x)).value, m), Eval(vals, Unary(uop, x)))
    decreases Unary(uop, x), 0
  {
    ExprComputes(env, level, x, m, vals);
    if uop == Minus {
      GenExprNoJumps(env, level, x);
      NegatedOperand(GenExpr(env, level, x).value, m, Eval(vals, x));
    }
  }

  /** Negating the value that jump-free operand code pushed. */
  lemma NegatedOperand(cx: seq<Instr>, m: Cpu, v: Option<int>)
    requires NoJumps(cx) && Computes(m, Exec(cx, m), v)
    ensures Computes(m, Exec(cx + [Pop(Rax), Neg(Rax), PushReg(Rax)], m), if v.Some? then Some(-v.value) else None)
  {
    Sequence(cx, [Pop(Rax), Neg(Rax), PushReg(Rax)], m);
    if v.Some? {
      var m1 := Exec(cx, m).value;
      var mb := m1.(stack := m.stack);
      assert m1 == mb.(stack := mb.stack + [v.value]);
      NegateComputes(mb, v.value);
    }
  }

  lemma VariableComputes(env: Env, level: int, x: string, m: Cpu, vals: map<string, int>)
    requires Agree(env, level, m, vals) && GenExpr(env, level, Variable(x)).Some?
    ensures Computes(m, Exec(GenExpr(env, level, Variable(x)).value, m), Eval(vals, Variable(x)))
  {
    var s := env[x];
    if s.kind == Const {
      ResultThenPush(MovImm(s.value.GetOr(0), Rax), m, s.value.GetOr(0));
    } else {
      LoadComputes(Hops(level, s.nestingLevel), s.offset, m, vals[x]);
    }
  }

  /** Walking `hops` static links and loading at `offset` pushes the word
      stored there. */
  lemma LoadComputes(hops: nat, offset: int, m: Cpu, v: int)
    requires FrameAt(m, hops).Some? && FrameAt(m, hops).value + offset in m.mem
    requires m.mem[FrameAt(m, hops).value + offset] == v
    ensures Pushed(m, Exec(FrameWalk(hops) + [Load(offset, Rbx, Rax), PushReg(Rax)], m), v)
  {
    var w := FrameWalk(hops);
    assert NoJumps(w);
    assert w + [Load(offset, Rbx, Rax), PushReg(Rax)] == w + ([Load(offset, Rbx, Rax)] + [PushReg(Rax)]);
    Sequence(w, [Load(offset, Rbx, Rax)] + [PushReg(Rax)], m);
    FrameWalkReaches(hops, m);
    var m1 := Set(m, Rbx, FrameAt(m, hops).value);
    ResultThenPush(Load(offset, Rbx, Rax), m1, v);
  }

  // ---------------------------------------------------------------------
  // Conditions

  predicate RelHolds(op: RelOp, a: int, b: int) {
    match op
    case Eq => a == b
    case Ne => a != b
    case Lt => a < b
    case Le => a <= b
    case Gt => a > b
    case Ge => a >= b
  }

  /** `=`, `#`, `<`, `<=`, `>`, `>=` jump with je, jne, jl, jle, jg, jge. */
  function JumpFor(op: RelOp): (j: Jump)
    ensures forall a: int, b: int :: Holds(j, (a, b)) <==> RelHolds(op, a, b)
  {
    match op
    case Eq => Je
    case Ne => Jne
    case Lt => Jl
    case Le => Jle
    case Gt => Jg
    case Ge => Jge
  }

  /** The truth of a condition; None when evaluating it divides by zero or
      meets a name without a value. */
  function CondValue(vals: map<string, int>, c: Condition): Option<bool> {
    match c
    case Odd(e) =>
      var v :- Eval(vals, e);
      Some(v % 2 == 1)
    case Relational(l, op, r) =>
      var a :- Eval(vals, l);
      var b :- Eval(vals, r);
      Some(RelHolds(op, a, b))
  }

  function Bit(b: bool): int { if b then 1 else 0 }

  /** After both operands: compare, and push 1 at the true label or 0 and
      jump over it. */
  function RelationalTail(op: RelOp, trueLabel: nat, endLabel: nat): seq<Instr> {
    [Pop(Rbx), Pop(Rax), Cmp(Rbx, Rax), Jcc(JumpFor(op), Numbered(trueLabel)),
     PushImm(0), Jmp(Numbered(endLabel)), Def(Numbered(trueLabel)), PushImm(1), Def(Numbered(endLabel))]
  }

  /** The code of a condition and the next free label number: a relation
      takes two labels, allocated after its operands' code. */
  function GenCond(env: Env, level: int, k: nat, c: Condition): Option<(seq<Instr>, nat)> {
    match c
    case Odd(e) =>
      var ce :- GenExpr(env, level, e);
      Some((ce + [Pop(Rax), AndOne(Rax), PushReg(Rax)], k))
    case Relational(l, op, r) =>
      var cl :- GenExpr(env, level, l);
      var cr :- GenExpr(env, level, r);
      Some((cl + cr + RelationalTail(op, k, k + 1), k + 2))
  }

  /** The branch after the comparison: the jump to the true label skips
      the push of 0, falling through pushes 0 and jumps over the push of 1. */
  lemma BranchComputes(j: Jump, k: nat, m: Cpu)
    ensures Exec([Jcc(j, Numbered(k)), PushImm(0), Jmp(Numbered(k + 1)), Def(Numbered(k)), PushImm(1), Def(Numbered(k + 1))], m)
            == Some(m.(stack := m.stack + [Bit(Holds(j, m.flags))]))
  {
    if Holds(j, m.flags) { BranchTaken(j, k, m); } else { BranchNotTaken(j, k, m); }
  }

  lemma BranchTaken(j: Jump, k: nat, m: Cpu)
    requires Holds(j, m.flags)
    ensures Exec([Jcc(j, Numbered(k)), PushImm(0), Jmp(Numbered(k + 1)), Def(Numbered(k)), PushImm(1), Def(Numbered(k + 1))], m)
            == Some(m.(stack := m.stack + [1]))
  {
    var tk, te := Numbered(k), Numbered(k + 1);
    var code := [Jcc(j, tk), PushImm(0), Jmp(te), Def(tk), PushImm(1), Def(te)];
    var onTrue := [PushImm(1), Def(te)];
    var tail := [Jmp(te), Def(tk), PushImm(1), Def(te)];
    assert code[1..] == [PushImm(0)] + tail;
    assert tail[1..] == [Def(tk)] + onTrue;
    assert After(tail[1..], tk) == Some(onTrue);
    assert After(code[1..], tk) == Some(onTrue);
    assert onTrue == [PushImm(1)] + [Def(te)];
    ExecOne(PushImm(1), [Def(te)], m);
    var m1 := m.(stack := m.stack + [1]);
    assert Step(m, PushImm(1)) == Some(m1);
    assert [Def(te)][1..] == [];
    assert Exec([Def(te)], m1) == Exec([], m1);
    assert Exec(code, m) == Exec(onTrue, m);
  }

  lemma BranchNotTaken(j: Jump, k: nat, m: Cpu)
    requires !Holds(j, m.flags)
    ensures Exec([Jcc(j, Numbered(k)), PushImm(0), Jmp(Numbered(k + 1)), Def(Numbered(k)), PushImm(1), Def(Numbered(k + 1))], m)
            == Some(m.(stack := m.stack + [0]))
  {
    var tk, te := Numbered(k), Numbered(k + 1);
    var code := [Jcc(j, tk), PushImm(0), Jmp(te), Def(tk), PushImm(1), Def(te)];
    var tail := [Jmp(te), Def(tk), PushImm(1), Def(te)];
    assert code[1..] == [PushImm(0)] + tail;
    assert Exec(code, m) == Exec(code[1..], m);
    ExecOne(PushImm(0), tail, m);
    var m0 := m.(stack := m.stack + [0]);
    assert Step(m, PushImm(0)) == Some(m0);
    var onTrue := [PushImm(1), Def(te)];
    assert tail[1..] == [Def(tk)] + onTrue;
    assert onTrue[1..] == [Def(te)];
    assert [Def(te)][1..] == [];
    assert After(onTrue, te) == Some([]);
    assert After(tail[1..], te) == Some([]);
    assert Exec(tail, m0) == Exec([], m0);
  }

  /** With both operands on the stack, the tail pushes 1 when the relation
      holds and 0 otherwise. */
  lemma RelationalTailComputes(op: RelOp, k: nat, m: Cpu, a: int, b: int)
    ensures Pushed(m, Exec(RelationalTail(op, k, k + 1), m.(stack := m.stack + [a, b])), Bit(RelHolds(op, a, b)))
  {
    var branch := [Jcc(JumpFor(op), Numbered(k)), PushImm(0), Jmp(Numbered(k + 1)),
                   Def(Numbered(k)), PushImm(1), Def(Numbered(k + 1))];
    assert RelationalTail(op, k, k + 1) == [Pop(Rbx), Pop(Rax)] + ([Cmp(Rbx, Rax)] + branch);
    PopsOperands([Cmp(Rbx, Rax)] + branch, m, a, b);
    CompareAndBranch(op, k, Set(Set(m, Rbx, b), Rax, a), a, b);
  }

  /** `cmp %rbx, %rax` and the branch push whether `%rax op %rbx` holds. */
  lemma CompareAndBranch(op: RelOp, k: nat, m2: Cpu, a: int, b: int)
    requires Get(m2, Rax) == a && Get(m2, Rbx) == b
    ensures Exec([Cmp(Rbx, Rax), Jcc(JumpFor(op), Numbered(k)), PushImm(0), Jmp(Numbered(k + 1)),
                  Def(Numbered(k)), PushImm(1), Def(Numbered(k + 1))], m2)
            == Some(m2.(flags := (a, b)).(stack := m2.stack + [Bit(RelHolds(op, a, b))]))
  {
    var branch := [Jcc(JumpFor(op), Numbered(k)), PushImm(0), Jmp(Numbered(k + 1)),
                   Def(Numbered(k)), PushImm(1), Def(Numbered(k + 1))];
    assert [Cmp(Rbx, Rax), Jcc(JumpFor(op), Numbered(k)), PushImm(0), Jmp(Numbered(k + 1)),
            Def(Numbered(k)), PushImm(1), Def(Numbered(k + 1))] == [Cmp(Rbx, Rax)] + branch;
    var m3 := m2.(flags := (a, b));
    ExecOne(Cmp(Rbx, Rax), branch, m2);
    assert Step(m2, Cmp(Rbx, Rax)) == Some(m3);
    BranchComputes(JumpFor(op), k, m3);
    assert Holds(JumpFor(op), m3.flags) == RelHolds(op, a, b);
  }

  /** `pop %rax; and $1, %rax; push %rax` leaves the parity bit. */
  lemma ParityComputes(m: Cpu, a: int)
    ensures Pushed(m, Exec([Pop(Rax), AndOne(Rax), PushReg(Rax)], m.(stack := m.stack + [a])), Bit(a % 2 == 1))
  {
    var m0 := m.(stack := m.stack + [a]);
    assert [Pop(Rax), AndOne(Rax), PushReg(Rax)] == [Pop(Rax)] + ([AndOne(Rax)] + [PushReg(Rax)]);
    ExecOne(Pop(Rax), [AndOne(Rax)] + [PushReg(Rax)], m0);
    assert (m.stack + [a])[..|m.stack|] == m.stack;
    var m1 := Set(m, Rax, a);
    assert Step(m0, Pop(Rax)) == Some(m1);
    ResultThenPush(AndOne(Rax), m1, a % 2);
  }

  /** A condition's code pushes 1 when the condition holds and 0 when it
      does not, whichever branch the relational code takes, and faults
      exactly when evaluating it divides by zero. */
  lemma {:induction false} CondComputes(env: Env, level: int, k: nat, c: Condition, m: Cpu, vals: map<string, int>)
    requires Agree(env, level, m, vals) && GenCond(env, level, k, c).Some?
    ensures var r := Exec(GenCond(env, level, k, c).value.0, m);
            && (CondValue(vals, c).None? ==> r.None?)
            && (CondValue(vals, c).Some? ==> Pushed(m, r, Bit(CondValue(vals, c).value)))
  {
    match c
    case Odd(e) =>
      var ce := GenExpr(env, level, e).value;
      GenExprNoJumps(env, level, e);
      Sequence(ce, [Pop(Rax), AndOne(Rax), PushReg(Rax)], m);
      ExprComputes(env, level, e, m, vals);
      if Eval(vals, e).Some? {
        var m1 := Exec(ce, m).value;
        var mb := m1.(stack := m.stack);
        assert m1 == mb.(stack := mb.stack + [Eval(vals, e).value]);
        ParityComputes(mb, Eval(vals, e).value);
      }
    case Relational(l, op, r) =>
      var cl, cr := GenExpr(env, level, l).value, GenExpr(env, level, r).value;
      var tail := RelationalTail(op, k, k + 1);
      assert GenCond(env, level, k, c).value.0 == cl + (cr + tail);
      GenExprNoJumps(env, level, l);
      GenExprNoJumps(env, level, r);
      Sequence(cl, cr + tail, m);
      ExprComputes(env, level, l, m, vals);
      if Eval(vals, l).Some? {
        var m1 := Exec(cl, m).value;
        AgreeFrame(env, level, m, m1, vals);
        Sequence(cr, tail, m1);
        ExprComputes(env, level, r, m1, vals);
        if Eval(vals, r).Some? {
          var m2 := Exec(cr, m1).value;
          var a, b := Eval(vals, l).value, Eval(vals, r).value;
          var mb := m2.(stack := m.stack);
          assert m2 == mb.(stack := mb.stack + [a, b]);
          RelationalTailComputes(op, k, mb, a, b);
        }
      }
  }

  // ---------------------------------------------------------------------
  // Statements

  /** The frame walk to a name's level: `-8(%rbx)` hops down the static links. */
  function WalkTo(level: int, s: SymbolEntry): seq<Instr> {
    FrameWalk(Hops(level, s.nestingLevel))
  }

  /** `pop %rax; cmp $0, %rax; je` to the given label: leave when false. */
  function BranchIfFalse(l: nat): seq<Instr> {
    [Pop(Rax), CmpImm(0, Rax), Jcc(Je, Numbered(l))]
  }

  /** IF with labels k (ELSE) and k+1 (end): branch to the ELSE part when
      the condition pushed 0, jump over it after the THEN part. */
  function IfCode(k: nat, cc: seq<Instr>, ct: seq<Instr>, ce: seq<Instr>): seq<Instr> {
    cc + BranchIfFalse(k) + ct + [Jmp(Numbered(k + 1)), Def(Numbered(k))] + ce + [Def(Numbered(k + 1))]
  }

  /** WHILE with labels k (start) and k+1 (end): test, leave when the
      condition pushed 0, otherwise run the body and jump back. */
  function WhileCode(k: nat, cc: seq<Instr>, cd: seq<Instr>): seq<Instr> {
    [Def(Numbered(k))] + cc + BranchIfFalse(k + 1) + cd + [Jmp(Numbered(k)), Def(Numbered(k + 1))]
  }

  /** READ: per name, the address of its slot in `%rsi`, then `scanf`. */
  function ReadCode(env: Env, level: int, names: seq<string>): Option<seq<Instr>> {
    if names == [] then Some([])
    else
      var front :- ReadCode(env, level, names[..|names| - 1]);
      var x := names[|names| - 1];
      if x !in env then None
      else Some(front + WalkTo(level, env[x]) + [Lea(env[x].offset, Rbx, Rsi), LeaFormat(FmtIn, Rdi), MovImm(0, Rax), CallExtern(Scanf)])
  }

  /** WRITE: per expression, its value popped into `%rsi`, then `printf`. */
  function WriteCode(env: Env, level: int, es: seq<Expr>): Option<seq<Instr>> {
    if es == [] then Some([])
    else
      var front :- WriteCode(env, level, es[..|es| - 1]);
      var ce :- GenExpr(env, level, es[|es| - 1]);
      Some(front + ce + [Pop(Rsi), LeaFormat(FmtOut, Rdi), MovImm(0, Rax), CallExtern(Printf)])
  }

  /** The code of a statement and the next free label number, started with
      `k` free; None when a name it uses is not visible.  IF and WHILE take
      their two labels before their condition's. */
  function GenStmt(env: Env, level: int, k: nat, st: Statement): Option<(seq<Instr>, nat)>
    decreases st
  {
    match st
    case Assignment(x, e) =>
      var ce :- GenExpr(env, level, e);
      if x !in env then None
      else Some((ce + [Pop(Rax)] + WalkTo(level, env[x]) + [Store(Rax, env[x].offset, Rbx)], k))
    case Call(x) =>
      if x !in env then None
      else Some((WalkTo(level, env[x]) + [Mov(Rbx, R10), CallLabel(ProcEntry(x))], k))
    case Begin(body) => GenStmts(env, level, k, body)
    case If(c, th, el) =>
      var cc :- GenCond(env, level, k + 2, c);
      var ct :- GenStmt(env, level, cc.1, th);
      var ce :- GenElse(env, level, ct.1, el);
      Some((IfCode(k, cc.0, ct.0, ce.0), ce.1))
    case While(c, d) =>
      var cc :- GenCond(env, level, k + 2, c);
      var cd :- GenStmt(env, level, cc.1, d);
      Some((WhileCode(k, cc.0, cd.0), cd.1))
    case Read(names) =>
      var code :- ReadCode(env, level, names);
      Some((code, k))
    case Write(es) =>
      var code :- WriteCode(env, level, es);
      Some((code, k))
    case Skip => Some(([], k))
  }

  /** An IF without ELSE has an empty ELSE part. */
  function GenElse(env: Env, level: int, k: nat, el: Option<Statement>): Option<(seq<Instr>, nat)>
    decreases el
  {
    if el.Some? then GenStmt(env, level, k, el.value) else Some(([], k))
  }

  function GenStmts(env: Env, level: int, k: nat, ss: seq<Statement>): Option<(seq<Instr>, nat)>
    decreases ss
  {
    if ss == [] then Some(([], k))
    else
      var front :- GenStmts(env, level, k, ss[..|ss| - 1]);
      var last :- GenStmt(env, level, front.1, ss[|ss| - 1]);
      Some((front.0 + last.0, last.1))
  }

  // ---------------------------------------------------------------------
  // When generation succeeds

  /** Every name used is visible. */
  predicate Declared(env: Env, us: seq<Use>) {
    forall i :: 0 <= i < |us| ==> us[i].name in env
  }

  lemma DeclaredAppend(env: Env, a: seq<Use>, b: seq<Use>)
    ensures Declared(env, a + b) <==> Declared(env, a) && Declared(env, b)
  {
    if Declared(env, a) && Declared(env, b) {
      forall i | 0 <= i < |a + b| ensures (a + b)[i].name in env {
        if i >= |a| { assert (a + b)[i] == b[i - |a|]; }
      }
    }
    if Declared(env, a + b) {
      forall i | 0 <= i < |a| ensures a[i].name in env {
        assert (a + b)[i] == a[i];
      }
      forall i | 0 <= i < |b| ensures b[i].name in env {
        assert (a + b)[|a| + i] == b[i];
      }
    }
  }

  /** An expression's code exists exactly when every name in it is visible. */
  lemma {:induction false} ExprSomeIff(env: Env, level: int, e: Expr)
    ensures GenExpr(env, level, e).Some? <==> Declared(env, ExprUses(e))
  {
    match e
    case Binary(_, l, r) =>
      ExprSomeIff(env, level, l);
      ExprSomeIff(env, level, r);
      DeclaredAppend(env, ExprUses(l), ExprUses(r));
    case Unary(_, x) => ExprSomeIff(env, level, x);
    case Number(_) =>
    case Variable(x) => assert ExprUses(e)[0] == Factor(x);
  }

  lemma CondSomeIff(env: Env, level: int, k: nat, c: Condition)
    ensures GenCond(env, level, k, c).Some? <==> Declared(env, CondUses(c))
  {
    match c
    case Odd(e) => ExprSomeIff(env, level, e);
    case Relational(l, _, r) =>
      ExprSomeIff(env, level, l);
      ExprSomeIff(env, level, r);
      DeclaredAppend(env, ExprUses(l), ExprUses(r));
  }

  lemma {:induction false} ReadSomeIff(env: Env, level: int, names: seq<string>)
    ensures ReadCode(env, level, names).Some? <==> Declared(env, StmtUses(Read(names)))
    decreases |names|
  {
    if names != [] {
      var init := names[..|names| - 1];
      ReadSomeIff(env, level, init);
      var us := StmtUses(Read(names));
      assert us == StmtUses(Read(init)) + [Target(names[|names| - 1])];
      DeclaredAppend(env, StmtUses(Read(init)), [Target(names[|names| - 1])]);
      assert Declared(env, [Target(names[|names| - 1])]) <==> names[|names| - 1] in env by {
        assert [Target(names[|names| - 1])][0].name == names[|names| - 1];
      }
    }
  }

  lemma {:induction false} WriteSomeIff(env: Env, level: int, es: seq<Expr>)
    ensures WriteCode(env, level, es).Some? <==> Declared(env, WriteUses(es))
    decreases |es|
  {
    if es != [] {
      WriteSomeIff(env, level, es[..|es| - 1]);
      ExprSomeIff(env, level, es[|es| - 1]);
      DeclaredAppend(env, WriteUses(es[..|es| - 1]), ExprUses(es[|es| - 1]));
    }
  }

  /** A statement's code exists exactly when every name it uses is visible,
      whatever the kinds of those names and wherever labels start. */
  lemma {:induction false} StmtSomeIff(env: Env, level: int, k: nat, st: Statement)
    ensures GenStmt(env, level, k, st).Some? <==> Declared(env, StmtUses(st))
    decreases st
  {
    match st
    case Assignment(x, e) =>
      ExprSomeIff(env, level, e);
      DeclaredAppend(env, [Target(x)], ExprUses(e));
      assert Declared(env, [Target(x)]) <==> x in env by {
        assert [Target(x)][0].name == x;
      }
    case Call(x) => assert StmtUses(st)[0] == Callee(x);
    case Begin(body) => StmtsSomeIff(env, level, k, body);
    case If(c, th, el) =>
      CondSomeIff(env, level, k + 2, c);
      DeclaredAppend(env, CondUses(c), StmtUses(th));
      var els := if el.Some? then StmtUses(el.value) else [];
      DeclaredAppend(env, CondUses(c) + StmtUses(th), els);
      if GenCond(env, level, k + 2, c).Some? {
        var k1 := GenCond(env, level, k + 2, c).value.1;
        StmtSomeIff(env, level, k1, th);
        if GenStmt(env, level, k1, th).Some? && el.Some? {
          StmtSomeIff(env, level, GenStmt(env, level, k1, th).value.1, el.value);
        }
      }
    case While(c, d) =>
      CondSomeIff(env, level, k + 2, c);
      DeclaredAppend(env, CondUses(c), StmtUses(d));
      if GenCond(env, level, k + 2, c).Some? {
        StmtSomeIff(env, level, GenCond(env, level, k + 2, c).value.1, d);
      }
    case Read(names) => ReadSomeIff(env, level, names);
    case Write(es) => WriteSomeIff(env, level, es);
    case Skip =>
  }

  lemma {:induction false} StmtsSomeIff(env: Env, level: int, k: nat, ss: seq<Statement>)
    ensures GenStmts(env, level, k, ss).Some? <==> Declared(env, StmtsUses(ss))
    decreases ss
  {
    if ss != [] {
      var init := ss[..|ss| - 1];
      StmtsSomeIff(env, level, k, init);
      DeclaredAppend(env, StmtsUses(init), StmtUses(ss[|ss| - 1]));
      if GenStmts(env, level, k, init).Some? {
        StmtSomeIff(env, level, GenStmts(env, level, k, init).value.1, ss[|ss| - 1]);
      } else {
        assert !Declared(env, StmtsUses(init));
      }
    }
  }

  /** A statement that passes the check generates code: every name it uses
      then resolves. */
  lemma StmtGenerates(env: Env, level: int, k: nat, st: Statement)
    requires StmtErrors(env, st) == 0
    ensures GenStmt(env, level, k, st).Some?
  {
    NoStmtErrorsIffUsesOk(env, st);
    StmtSomeIff(env, level, k, st);
    forall i | 0 <= i < |StmtUses(st)| ensures StmtUses(st)[i].name in env {
      assert !Bad(env, StmtUses(st)[i]);
    }
  }

  // ---------------------------------------------------------------------
  // Labels

  /** The numbered labels defined in `code` are exactly lo..hi-1, each once. */
  ghost predicate DefinesExactly(code: seq<Instr>, lo: nat, hi: nat) {
    forall n: nat :: multiset(code)[Def(Numbered(n))] == if lo <= n < hi then 1 else 0
  }

  /** Every jump to a numbered label in `code` targets one of lo..hi-1. */
  predicate JumpsWithin(code: seq<Instr>, lo: nat, hi: nat) {
    forall i :: 0 <= i < |code| ==> TargetWithin(code[i], lo, hi)
  }

  predicate TargetWithin(x: Instr, lo: nat, hi: nat) {
    (x.Jmp? || x.Jcc?) && x.target.Numbered? ==> lo <= x.target.n < hi
  }

  lemma NoJumpsNoLabels(code: seq<Instr>, lo: nat, hi: nat)
    requires NoJumps(code)
    ensures DefinesExactly(code, lo, lo) && JumpsWithin(code, lo, hi)
  {
    NoDefsCount(code, lo);
  }

  lemma {:induction false} ReadCodeNoJumps(env: Env, level: int, names: seq<string>)
    requires ReadCode(env, level, names).Some?
    ensures NoJumps(ReadCode(env, level, names).value)
    decreases |names|
  {
    if names != [] {
      var init := names[..|names| - 1];
      var x := names[|names| - 1];
      ReadCodeNoJumps(env, level, init);
      var front := ReadCode(env, level, init).value;
      var w := WalkTo(level, env[x]);
      assert NoJumps(w);
      NoJumpsAppend(front, w);
      NoJumpsAppend(front + w, [Lea(env[x].offset, Rbx, Rsi), LeaFormat(FmtIn, Rdi), MovImm(0, Rax), CallExtern(Scanf)]);
    }
  }

  lemma {:induction false} WriteCodeNoJumps(env: Env, level: int, es: seq<Expr>)
    requires WriteCode(env, level, es).Some?
    ensures NoJumps(WriteCode(env, level, es).value)
    decreases |es|
  {
    if es != [] {
      WriteCodeNoJumps(env, level, es[..|es| - 1]);
      GenExprNoJumps(env, level, es[|es| - 1]);
      var front := WriteCode(env, level, es[..|es| - 1]).value;
      var ce := GenExpr(env, level, es[|es| - 1]).value;
      NoJumpsAppend(front, ce);
      NoJumpsAppend(front + ce, [Pop(Rsi), LeaFormat(FmtOut, Rdi), MovImm(0, Rax), CallExtern(Printf)]);
    }
  }

  lemma DefinesJoin(a: seq<Instr>, b: seq<Instr>, lo: nat, mid: nat, hi: nat)
    requires lo <= mid <= hi && DefinesExactly(a, lo, mid) && DefinesExactly(b, mid, hi)
    ensures DefinesExactly(a + b, lo, hi)
  {
    assert multiset(a + b) == multiset(a) + multiset(b);
  }

  lemma JumpsJoin(a: seq<Instr>, b: seq<Instr>, lo: nat, hi: nat)
    requires JumpsWithin(a, lo, hi) && JumpsWithin(b, lo, hi)
    ensures JumpsWithin(a + b, lo, hi)
  {
    forall i | 0 <= i < |a + b| ensures TargetWithin((a + b)[i], lo, hi) {
      if i < |a| { assert (a + b)[i] == a[i]; } else { assert (a + b)[i] == b[i - |a|]; }
    }
  }

  /** Code that defines no label. */
  predicate NoDefs(code: seq<Instr>) {
    forall i :: 0 <= i < |code| ==> !code[i].Def?
  }

  lemma JumpsWithinWiden(code: seq<Instr>, lo: nat, hi: nat, lo': nat, hi': nat)
    requires JumpsWithin(code, lo, hi) && lo' <= lo && hi <= hi'
    ensures JumpsWithin(code, lo', hi')
  {
    assert forall i :: 0 <= i < |code| ==> TargetWithin(code[i], lo, hi);
  }

  lemma NoDefsCount(code: seq<Instr>, lo: nat)
    requires NoDefs(code)
    ensures DefinesExactly(code, lo, lo)
  {
    forall n: nat ensures multiset(code)[Def(Numbered(n))] == 0 {
      assert Def(Numbered(n)) !in code;
    }
  }

  lemma DefineOne(l: nat)
    ensures DefinesExactly([Def(Numbered(l))], l, l + 1)
  {
  }

  /** A relation's tail defines its two labels... */
  lemma RelationalTailDefines(op: RelOp, k: nat)
    ensures DefinesExactly(RelationalTail(op, k, k + 1), k, k + 2)
  {
    var t := RelationalTail(op, k, k + 1);
    var j := JumpFor(op);
    assert t == [Pop(Rbx), Pop(Rax), Cmp(Rbx, Rax), Jcc(j, Numbered(k)), PushImm(0), Jmp(Numbered(k + 1)), Def(Numbered(k)), PushImm(1), Def(Numbered(k + 1))];
    TailDefs(j, k);
  }

  lemma TailDefs(j: Jump, k: nat)
    ensures DefinesExactly([Pop(Rbx), Pop(Rax), Cmp(Rbx, Rax), Jcc(j, Numbered(k)), PushImm(0), Jmp(Numbered(k + 1)), Def(Numbered(k)), PushImm(1), Def(Numbered(k + 1))], k, k + 2)
  {
  }

  /** ...and jumps only to them. */
  lemma RelationalTailJumps(op: RelOp, k: nat)
    ensures JumpsWithin(RelationalTail(op, k, k + 1), k, k + 2)
  {
    var t := RelationalTail(op, k, k + 1);
    forall i | 0 <= i < |t| ensures TargetWithin(t[i], k, k + 2) {
    }
  }

  /** The labels of an IF: its own two, then those of its condition, its
      THEN branch and its ELSE branch in turn. */
  lemma IfDefines(cc: seq<Instr>, ct: seq<Instr>, ce: seq<Instr>, k: nat, k1: nat, k2: nat, k3: nat)
    requires k + 2 <= k1 <= k2 <= k3
    requires DefinesExactly(cc, k + 2, k1) && DefinesExactly(ct, k1, k2) && DefinesExactly(ce, k2, k3)
    ensures DefinesExactly(IfCode(k, cc, ct, ce), k, k3)
  {
    var b := BranchIfFalse(k);
    var j := [Jmp(Numbered(k + 1))];
    var code := cc + b + ct + [Jmp(Numbered(k + 1)), Def(Numbered(k))] + ce + [Def(Numbered(k + 1))];
    assert code == cc + b + ct + j + [Def(Numbered(k))] + ce + [Def(Numbered(k + 1))];
    assert multiset(code) == multiset(cc) + multiset(b) + multiset(ct) + multiset(j) + multiset([Def(Numbered(k))])
                             + multiset(ce) + multiset([Def(Numbered(k + 1))]);
    NoDefsCount(b, k);
    NoDefsCount(j, k);
    DefineOne(k);
    DefineOne(k + 1);
  }

  lemma IfJumps(cc: seq<Instr>, ct: seq<Instr>, ce: seq<Instr>, k: nat, k1: nat, k2: nat, k3: nat)
    requires k + 2 <= k1 <= k2 <= k3
    requires JumpsWithin(cc, k + 2, k1) && JumpsWithin(ct, k1, k2) && JumpsWithin(ce, k2, k3)
    ensures JumpsWithin(IfCode(k, cc, ct, ce), k, k3)
  {
    var b := BranchIfFalse(k);
    var m := [Jmp(Numbered(k + 1)), Def(Numbered(k))];
    var e := [Def(Numbered(k + 1))];
    assert JumpsWithin(b, k, k3) by { assert forall i :: 0 <= i < |b| ==> TargetWithin(b[i], k, k3); }
    assert JumpsWithin(m, k, k3) by { assert forall i :: 0 <= i < |m| ==> TargetWithin(m[i], k, k3); }
    assert JumpsWithin(e, k, k3) by { assert forall i :: 0 <= i < |e| ==> TargetWithin(e[i], k, k3); }
    JumpsWithinWiden(cc, k + 2, k1, k, k3);
    JumpsWithinWiden(ct, k1, k2, k, k3);
    JumpsWithinWiden(ce, k2, k3, k, k3);
    JumpsJoin(cc, b, k, k3);
    JumpsJoin(cc + b, ct, k, k3);
    JumpsJoin(cc + b + ct, m, k, k3);
    JumpsJoin(cc + b + ct + m, ce, k, k3);
    JumpsJoin(cc + b + ct + m + ce, e, k, k3);
  }

  /** The labels of a WHILE: its own two, then those of its condition and
      its body. */
  lemma WhileDefines(cc: seq<Instr>, cd: seq<Instr>, k: nat, k1: nat, k2: nat)
    requires k + 2 <= k1 <= k2
    requires DefinesExactly(cc, k + 2, k1) && DefinesExactly(cd, k1, k2)
    ensures DefinesExactly(WhileCode(k, cc, cd), k, k2)
  {
    var b := BranchIfFalse(k + 1);
    var j := [Jmp(Numbered(k))];
    var code := [Def(Numbered(k))] + cc + b + cd + [Jmp(Numbered(k)), Def(Numbered(k + 1))];
    assert code == [Def(Numbered(k))] + cc + b + cd + j + [Def(Numbered(k + 1))];
    assert multiset(code) == multiset([Def(Numbered(k))]) + multiset(cc) + multiset(b) + multiset(cd)
                             + multiset(j) + multiset([Def(Numbered(k + 1))]);
    NoDefsCount(b, k);
    NoDefsCount(j, k);
    DefineOne(k);
    DefineOne(k + 1);
  }

  lemma WhileJumps(cc: seq<Instr>, cd: seq<Instr>, k: nat, k1: nat, k2: nat)
    requires k + 2 <= k1 <= k2
    requires JumpsWithin(cc, k + 2, k1) && JumpsWithin(cd, k1, k2)
    ensures JumpsWithin(WhileCode(k, cc, cd), k, k2)
  {
    var d := [Def(Numbered(k))];
    var b := BranchIfFalse(k + 1);
    var m := [Jmp(Numbered(k)), Def(Numbered(k + 1))];
    assert JumpsWithin(d, k, k2) by { assert forall i :: 0 <= i < |d| ==> TargetWithin(d[i], k, k2); }
    assert JumpsWithin(b, k, k2) by { assert forall i :: 0 <= i < |b| ==> TargetWithin(b[i], k, k2); }
    assert JumpsWithin(m, k, k2) by { assert forall i :: 0 <= i < |m| ==> TargetWithin(m[i], k, k2); }
    JumpsWithinWiden(cc, k + 2, k1, k, k2);
    JumpsWithinWiden(cd, k1, k2, k, k2);
    JumpsJoin(d, cc, k, k2);
    JumpsJoin(d + cc, b, k, k2);
    JumpsJoin(d + cc + b, cd, k, k2);
    JumpsJoin(d + cc + b + cd, m, k, k2);
  }

  /** The code of a relation whose operands have no jumps. */
  lemma RelationalLabels(cl: seq<Instr>, cr: seq<Instr>, op: RelOp, k: nat)
    requires NoJumps(cl) && NoJumps(cr)
    ensures DefinesExactly(cl + cr + RelationalTail(op, k, k + 1), k, k + 2)
    ensures JumpsWithin(cl + cr + RelationalTail(op, k, k + 1), k, k + 2)
  {
    NoJumpsAppend(cl, cr);
    NoJumpsNoLabels(cl + cr, k, k + 2);
    RelationalTailDefines(op, k);
    RelationalTailJumps(op, k);
    DefinesJoin(cl + cr, RelationalTail(op, k, k + 1), k, k, k + 2);
    JumpsJoin(cl + cr, RelationalTail(op, k, k + 1), k, k + 2);
  }

  /** Code that takes the labels lo..hi-1: it defines each exactly once and
      jumps to no other numbered label. */
  ghost predicate Labelled(code: seq<Instr>, lo: nat, hi: nat) {
    lo <= hi && DefinesExactly(code, lo, hi) && JumpsWithin(code, lo, hi)
  }

  /** Jump-free code takes no label. */
  lemma NoJumpsLabelled(code: seq<Instr>, k: nat)
    requires NoJumps(code)
    ensures Labelled(code, k, k)
  {
    NoJumpsNoLabels(code, k, k);
  }

  /** A condition takes the labels from `k` up to the next free one. */
  lemma CondLabels(env: Env, level: int, k: nat, c: Condition)
    requires GenCond(env, level, k, c).Some?
    ensures GenCond(env, level, k, c).value.1 == if c.Odd? then k else k + 2
    ensures Labelled(GenCond(env, level, k, c).value.0, k, GenCond(env, level, k, c).value.1)
  {
    match c
    case Odd(e) => OddLabels(env, level, k, e);
    case Relational(l, op, rhs) => RelationalCondLabels(env, level, k, l, op, rhs);
  }

  lemma OddLabels(env: Env, level: int, k: nat, e: Expr)
    requires GenCond(env, level, k, Odd(e)).Some?
    ensures GenCond(env, level, k, Odd(e)).value.1 == k
    ensures Labelled(GenCond(env, level, k, Odd(e)).value.0, k, GenCond(env, level, k, Odd(e)).value.1)
  {
    GenExprNoJumps(env, level, e);
    var ce := GenExpr(env, level, e).value;
    NoJumpsAppend(ce, [Pop(Rax), AndOne(Rax), PushReg(Rax)]);
    NoJumpsLabelled(ce + [Pop(Rax), AndOne(Rax), PushReg(Rax)], k);
  }

  lemma RelationalCondLabels(env: Env, level: int, k: nat, l: Expr, op: RelOp, r: Expr)
    requires GenCond(env, level, k, Relational(l, op, r)).Some?
    ensures GenCond(env, level, k, Relational(l, op, r)).value.1 == k + 2
    ensures Labelled(GenCond(env, level, k, Relational(l, op, r)).value.0, k, GenCond(env, level, k, Relational(l, op, r)).value.1)
  {
    GenExprNoJumps(env, level, l);
    GenExprNoJumps(env, level, r);
    RelationalLabels(GenExpr(env, level, l).value, GenExpr(env, level, r).value, op, k);
  }

  /** A statement started with `k` free takes the labels k..k'-1, where k'
      is the next free label after it. */
  lemma {:induction false} StmtLabels(env: Env, level: int, k: nat, st: Statement)
    requires GenStmt(env, level, k, st).Some?
    ensures Labelled(GenStmt(env, level, k, st).value.0, k, GenStmt(env, level, k, st).value.1)
    decreases st, 2
  {
    match st
    case Assignment(x, e) => AssignmentLabels(env, level, k, x, e);
    case Call(x) => CallLabels(env, level, k, x);
    case Begin(body) => StmtsLabels(env, level, k, body);
    case If(c, th, el) => IfLabels(env, level, k, c, th, el);
    case While(c, d) => WhileLabels(env, level, k, c, d);
    case Read(names) =>
      ReadCodeNoJumps(env, level, names);
      NoJumpsLabelled(ReadCode(env, level, names).value, k);
    case Write(es) =>
      WriteCodeNoJumps(env, level, es);
      NoJumpsLabelled(WriteCode(env, level, es).value, k);
    case Skip => NoJumpsLabelled([], k);
  }

  lemma AssignmentLabels(env: Env, level: int, k: nat, x: string, e: Expr)
    requires GenStmt(env, level, k, Assignment(x, e)).Some?
    ensures Labelled(GenStmt(env, level, k, Assignment(x, e)).value.0, k, k)
  {
    GenExprNoJumps(env, level, e);
    var ce := GenExpr(env, level, e).value;
    var w := WalkTo(level, env[x]);
    assert NoJumps(w);
    NoJumpsAppend(ce, [Pop(Rax)]);
    NoJumpsAppend(ce + [Pop(Rax)], w);
    NoJumpsAppend(ce + [Pop(Rax)] + w, [Store(Rax, env[x].offset, Rbx)]);
    NoJumpsLabelled(ce + [Pop(Rax)] + w + [Store(Rax, env[x].offset, Rbx)], k);
  }

  lemma CallLabels(env: Env, level: int, k: nat, x: string)
    requires GenStmt(env, level, k, Call(x)).Some?
    ensures Labelled(GenStmt(env, level, k, Call(x)).value.0, k, k)
  {
    var w := WalkTo(level, env[x]);
    assert NoJumps(w);
    NoJumpsAppend(w, [Mov(Rbx, R10), CallLabel(ProcEntry(x))]);
    NoJumpsLabelled(w + [Mov(Rbx, R10), CallLabel(ProcEntry(x))], k);
  }

  /** A generated IF is made of its three parts' code. */
  lemma IfUnfold(env: Env, level: int, k: nat, c: Condition, th: Statement, el: Option<Statement>)
    requires GenStmt(env, level, k, If(c, th, el)).Some?
    ensures GenCond(env, level, k + 2, c).Some?
    ensures GenStmt(env, level, GenCond(env, level, k + 2, c).value.1, th).Some?
    ensures GenElse(env, level, GenStmt(env, level, GenCond(env, level, k + 2, c).value.1, th).value.1, el).Some?
    ensures var cc := GenCond(env, level, k + 2, c).value;
            var ct := GenStmt(env, level, cc.1, th).value;
            var ce := GenElse(env, level, ct.1, el).value;
            GenStmt(env, level, k, If(c, th, el)).value == (IfCode(k, cc.0, ct.0, ce.0), ce.1)
  {
  }

  lemma {:induction false} IfLabels(env: Env, level: int, k: nat, c: Condition, th: Statement, el: Option<Statement>)
    requires GenStmt(env, level, k, If(c, th, el)).Some?
    ensures Labelled(GenStmt(env, level, k, If(c, th, el)).value.0, k, GenStmt(env, level, k, If(c, th, el)).value.1)
    decreases If(c, th, el), 1
  {
    IfUnfold(env, level, k, c, th, el);
    var cc := GenCond(env, level, k + 2, c).value;
    var ct := GenStmt(env, level, cc.1, th).value;
    var ce := GenElse(env, level, ct.1, el).value;
    CondLabels(env, level, k + 2, c);
    StmtLabels(env, level, cc.1, th);
    ElseLabels(env, level, ct.1, el);
    IfCodeLabelled(cc.0, ct.0, ce.0, k, cc.1, ct.1, ce.1);
  }

  lemma {:induction false} ElseLabels(env: Env, level: int, k: nat, el: Option<Statement>)
    requires GenElse(env, level, k, el).Some?
    ensures Labelled(GenElse(env, level, k, el).value.0, k, GenElse(env, level, k, el).value.1)
    decreases el, 0
  {
    if el.Some? { StmtLabels(env, level, k, el.value); } else { NoJumpsLabelled([], k); }
  }

  lemma IfCodeLabelled(cc: seq<Instr>, ct: seq<Instr>, ce: seq<Instr>, k: nat, k1: nat, k2: nat, k3: nat)
    requires Labelled(cc, k + 2, k1) && Labelled(ct, k1, k2) && Labelled(ce, k2, k3)
    ensures Labelled(IfCode(k, cc, ct, ce), k, k3)
  {
    IfDefines(cc, ct, ce, k, k1, k2, k3);
    IfJumps(cc, ct, ce, k, k1, k2, k3);
  }

  lemma {:induction false} WhileLabels(env: Env, level: int, k: nat, c: Condition, d: Statement)
    requires GenStmt(env, level, k, While(c, d)).Some?
    ensures Labelled(GenStmt(env, level, k, While(c, d)).value.0, k, GenStmt(env, level, k, While(c, d)).value.1)
    decreases While(c, d), 0
  {
    WhileUnfold(env, level, k, c, d);
    var cc := GenCond(env, level, k + 2, c).value;
    var cd := GenStmt(env, level, cc.1, d).value;
    CondLabels(env, level, k + 2, c);
    StmtLabels(env, level, cc.1, d);
    WhileDefines(cc.0, cd.0, k, cc.1, cd.1);
    WhileJumps(cc.0, cd.0, k, cc.1, cd.1);
  }

  /** A generated WHILE is made of its condition's and body's code. */
  lemma WhileUnfold(env: Env, level: int, k: nat, c: Condition, d: Statement)
    requires GenStmt(env, level, k, While(c, d)).Some?
    ensures GenCond(env, level, k + 2, c).Some?
    ensures GenStmt(env, level, GenCond(env, level, k + 2, c).value.1, d).Some?
    ensures var cc := GenCond(env, level, k + 2, c).value;
            var cd := GenStmt(env, level, cc.1, d).value;
            GenStmt(env, level, k, While(c, d)).value == (WhileCode(k, cc.0, cd.0), cd.1)
  {
  }

  lemma {:induction false} StmtsLabels(env: Env, level: int, k: nat, ss: seq<Statement>)
    requires GenStmts(env, level, k, ss).Some?
    ensures Labelled(GenStmts(env, level, k, ss).value.0, k, GenStmts(env, level, k, ss).value.1)
    decreases ss
  {
    if ss == [] {
      NoJumpsLabelled([], k);
    } else {
      var front := GenStmts(env, level, k, ss[..|ss| - 1]).value;
      StmtsLabels(env, level, k, ss[..|ss| - 1]);
      StmtLabels(env, level, front.1, ss[|ss| - 1]);
      var last := GenStmt(env, level, front.1, ss[|ss| - 1]).value;
      LabelledJoin(front.0, last.0, k, front.1, last.1);
    }
  }

  lemma LabelledJoin(a: seq<Instr>, b: seq<Instr>, lo: nat, mid: nat, hi: nat)
    requires Labelled(a, lo, mid) && Labelled(b, mid, hi)
    ensures Labelled(a + b, lo, hi)
  {
    DefinesJoin(a, b, lo, mid, hi);
    JumpsWithinWiden(a, lo, mid, lo, hi);
    JumpsWithinWiden(b, mid, hi, lo, hi);
    JumpsJoin(a, b, lo, hi);
  }
}

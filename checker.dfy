/** The semantic check (`symbolTable/PL0SemanticChecker.java`): re-walks the
    tree the declaration pass built, entering each procedure's scope in
    turn, and counts one error per misused name: an assignment or READ
    whose target is not a VAR, a CALL of something that is not a
    PROCEDURE, and a name in an expression that is undeclared or a
    PROCEDURE. */
module Checking {
  import opened Wrappers
  import opened Symbols
  import opened Ast
  import opened ScopeTree
  import opened SymbolTables
  import opened Declarations
  import opened Traversal

  type Env = map<string, SymbolEntry>

  // ---------------------------------------------------------------------
  // One use of a name

  /** An assignment or READ target must be a declared VAR. */
  predicate BadTarget(env: Env, x: string) {
    Find(env, x).None? || Find(env, x).value.kind != Var
  }

  /** A CALL must name a declared PROCEDURE. */
  predicate BadCallee(env: Env, x: string) {
    Find(env, x).None? || Find(env, x).value.kind != Procedure
  }

  /** A name in an expression must be declared and not be a PROCEDURE. */
  predicate BadFactor(env: Env, x: string) {
    Find(env, x).None? || Find(env, x).value.kind == Procedure
  }

  function Count(bad: bool): nat { if bad then 1 else 0 }

  // ---------------------------------------------------------------------
  // Errors in statements, counted in the walk's order

  function ExprErrors(env: Env, e: Expr): nat {
    match e
    case Binary(_, l, r) => ExprErrors(env, l) + ExprErrors(env, r)
    case Unary(_, x) => ExprErrors(env, x)
    case Number(_) => 0
    case Variable(x) => Count(BadFactor(env, x))
  }

  function CondErrors(env: Env, c: Condition): nat {
    match c
    case Odd(e) => ExprErrors(env, e)
    case Relational(l, _, r) => ExprErrors(env, l) + ExprErrors(env, r)
  }

  function ReadErrors(env: Env, names: seq<string>): nat {
    if names == [] then 0
    else ReadErrors(env, names[..|names| - 1]) + Count(BadTarget(env, names[|names| - 1]))
  }

  function WriteErrors(env: Env, es: seq<Expr>): nat {
    if es == [] then 0 else WriteErrors(env, es[..|es| - 1]) + ExprErrors(env, es[|es| - 1])
  }

  function StmtErrors(env: Env, st: Statement): nat
    decreases st
  {
    match st
    case Assignment(x, e) => Count(BadTarget(env, x)) + ExprErrors(env, e)
    case Call(x) => Count(BadCallee(env, x))
    case Begin(body) => StmtsErrors(env, body)
    case If(c, th, el) =>
      CondErrors(env, c) + StmtErrors(env, th) + (if el.Some? then StmtErrors(env, el.value) else 0)
    case While(c, d) => CondErrors(env, c) + StmtErrors(env, d)
    case Read(names) => ReadErrors(env, names)
    case Write(es) => WriteErrors(env, es)
    case Skip => 0
  }

  function StmtsErrors(env: Env, ss: seq<Statement>): nat
    decreases ss
  {
    if ss == [] then 0 else StmtsErrors(env, ss[..|ss| - 1]) + StmtErrors(env, ss[|ss| - 1])
  }

  /** The names visible from the current scope. */
  function EnvOf(t: Table): Env
    requires Valid(t)
  {
    ValidParents(t.scopes);
    Visible(t.scopes, t.current)
  }

  // ---------------------------------------------------------------------
  // Partner: the uses of names a statement makes, and the bad ones among them

  datatype Use = Target(name: string) | Callee(name: string) | Factor(name: string)

  predicate Bad(env: Env, u: Use) {
    match u
    case Target(x) => BadTarget(env, x)
    case Callee(x) => BadCallee(env, x)
    case Factor(x) => BadFactor(env, x)
  }

  function ExprUses(e: Expr): seq<Use> {
    match e
    case Binary(_, l, r) => ExprUses(l) + ExprUses(r)
    case Unary(_, x) => ExprUses(x)
    case Number(_) => []
    case Variable(x) => [Factor(x)]
  }

  function CondUses(c: Condition): seq<Use> {
    match c
    case Odd(e) => ExprUses(e)
    case Relational(l, _, r) => ExprUses(l) + ExprUses(r)
  }

  function WriteUses(es: seq<Expr>): seq<Use> {
    if es == [] then [] else WriteUses(es[..|es| - 1]) + ExprUses(es[|es| - 1])
  }

  function StmtUses(st: Statement): seq<Use>
    decreases st
  {
    match st
    case Assignment(x, e) => [Target(x)] + ExprUses(e)
    case Call(x) => [Callee(x)]
    case Begin(body) => StmtsUses(body)
    case If(c, th, el) => CondUses(c) + StmtUses(th) + (if el.Some? then StmtUses(el.value) else [])
    case While(c, d) => CondUses(c) + StmtUses(d)
    case Read(names) => seq(|names|, i requires 0 <= i < |names| => Target(names[i]))
    case Write(es) => WriteUses(es)
    case Skip => []
  }

  function StmtsUses(ss: seq<Statement>): seq<Use>
    decreases ss
  {
    if ss == [] then [] else StmtsUses(ss[..|ss| - 1]) + StmtUses(ss[|ss| - 1])
  }

  /** How many of the uses are bad. */
  function BadCount(env: Env, us: seq<Use>): nat {
    if us == [] then 0 else BadCount(env, us[..|us| - 1]) + Count(Bad(env, us[|us| - 1]))
  }

  lemma {:induction false} BadCountAppend(env: Env, a: seq<Use>, b: seq<Use>)
    ensures BadCount(env, a + b) == BadCount(env, a) + BadCount(env, b)
    decreases |b|
  {
    if b != [] {
      assert (a + b)[..|a + b| - 1] == a + b[..|b| - 1];
      assert (a + b)[|a + b| - 1] == b[|b| - 1];
      BadCountAppend(env, a, b[..|b| - 1]);
    } else {
      assert a + b == a;
    }
  }

  /** No use is bad exactly when none is counted. */
  lemma {:induction false} BadCountZero(env: Env, us: seq<Use>)
    ensures BadCount(env, us) == 0 <==> forall i :: 0 <= i < |us| ==> !Bad(env, us[i])
    decreases |us|
  {
    if us != [] {
      var init := us[..|us| - 1];
      BadCountZero(env, init);
      assert forall i :: 0 <= i < |init| ==> init[i] == us[i];
    }
  }

  /** An expression reports one error per bad name in it. */
  lemma {:induction false} ExprErrorsAreBadUses(env: Env, e: Expr)
    ensures ExprErrors(env, e) == BadCount(env, ExprUses(e))
  {
    match e
    case Binary(_, l, r) =>
      ExprErrorsAreBadUses(env, l);
      ExprErrorsAreBadUses(env, r);
      BadCountAppend(env, ExprUses(l), ExprUses(r));
    case Unary(_, x) => ExprErrorsAreBadUses(env, x);
    case Number(_) =>
    case Variable(x) => assert [Factor(x)][..0] == [];
  }

  lemma CondErrorsAreBadUses(env: Env, c: Condition)
    ensures CondErrors(env, c) == BadCount(env, CondUses(c))
  {
    match c
    case Odd(e) => ExprErrorsAreBadUses(env, e);
    case Relational(l, _, r) =>
      ExprErrorsAreBadUses(env, l);
      ExprErrorsAreBadUses(env, r);
      BadCountAppend(env, ExprUses(l), ExprUses(r));
  }

  lemma {:induction false} ReadErrorsAreBadUses(env: Env, names: seq<string>)
    ensures ReadErrors(env, names) == BadCount(env, StmtUses(Read(names)))
    decreases |names|
  {
    if names != [] {
      var init := names[..|names| - 1];
      ReadErrorsAreBadUses(env, init);
      assert StmtUses(Read(names))[..|names| - 1] == StmtUses(Read(init));
    }
  }

  lemma {:induction false} WriteErrorsAreBadUses(env: Env, es: seq<Expr>)
    ensures WriteErrors(env, es) == BadCount(env, WriteUses(es))
    decreases |es|
  {
    if es != [] {
      WriteErrorsAreBadUses(env, es[..|es| - 1]);
      ExprErrorsAreBadUses(env, es[|es| - 1]);
      BadCountAppend(env, WriteUses(es[..|es| - 1]), ExprUses(es[|es| - 1]));
    }
  }

  /** A statement reports one error per bad use of a name in it. */
  lemma {:induction false} StmtErrorsAreBadUses(env: Env, st: Statement)
    ensures StmtErrors(env, st) == BadCount(env, StmtUses(st))
    decreases st
  {
    match st
    case Assignment(x, e) =>
      ExprErrorsAreBadUses(env, e);
      BadCountAppend(env, [Target(x)], ExprUses(e));
      assert [Target(x)][..0] == [];
    case Call(x) => assert [Callee(x)][..0] == [];
    case Begin(body) => StmtsErrorsAreBadUses(env, body);
    case If(c, th, el) =>
      CondErrorsAreBadUses(env, c);
      StmtErrorsAreBadUses(env, th);
      BadCountAppend(env, CondUses(c), StmtUses(th));
      if el.Some? {
        StmtErrorsAreBadUses(env, el.value);
        BadCountAppend(env, CondUses(c) + StmtUses(th), StmtUses(el.value));
      } else {
        assert CondUses(c) + StmtUses(th) + [] == CondUses(c) + StmtUses(th);
      }
    case While(c, d) =>
      CondErrorsAreBadUses(env, c);
      StmtErrorsAreBadUses(env, d);
      BadCountAppend(env, CondUses(c), StmtUses(d));
    case Read(names) => ReadErrorsAreBadUses(env, names);
    case Write(es) => WriteErrorsAreBadUses(env, es);
    case Skip =>
  }

  lemma {:induction false} StmtsErrorsAreBadUses(env: Env, ss: seq<Statement>)
    ensures StmtsErrors(env, ss) == BadCount(env, StmtsUses(ss))
    decreases ss
  {
    if ss != [] {
      StmtsErrorsAreBadUses(env, ss[..|ss| - 1]);
      StmtErrorsAreBadUses(env, ss[|ss| - 1]);
      BadCountAppend(env, StmtsUses(ss[..|ss| - 1]), StmtUses(ss[|ss| - 1]));
    }
  }

  /** A statement passes the check exactly when every name it uses is used
      as its declaration allows. */
  lemma NoStmtErrorsIffUsesOk(env: Env, st: Statement)
    ensures StmtErrors(env, st) == 0 <==> forall i :: 0 <= i < |StmtUses(st)| ==> !Bad(env, StmtUses(st)[i])
  {
    StmtErrorsAreBadUses(env, st);
    BadCountZero(env, StmtUses(st));
  }

  // ---------------------------------------------------------------------
  // Whole blocks, driven by the cursors as the listener is

  /** The table after the walk and the number of errors it reports. */
  function CheckBlock(t: Table, b: Block): (r: (Table, nat))
    requires Valid(t)
    ensures Valid(r.0)
    decreases b, 1
  {
    var (t1, n) := CheckProcs(t, b, 0);
    (t1, n + StmtErrors(EnvOf(t1), b.stmt))
  }

  function CheckProcs(t: Table, b: Block, i: nat): (r: (Table, nat))
    requires Valid(t) && i <= |b.procs|
    ensures Valid(r.0)
    decreases b, 0, |b.procs| - i
  {
    if i == |b.procs| then (t, 0)
    else
      var t1 := EnterNextChild(t).0;
      var (t2, n) := CheckBlock(t1, b.procs[i].body);
      var t3 := Exit(t2).0;
      var (t4, m) := CheckProcs(t3, b, i + 1);
      (t4, n + m)
  }

  /** One step of `CheckProcs`: procedure `i`, then the rest. */
  lemma CheckProcsStep(t: Table, b: Block, i: nat)
    requires Valid(t) && i < |b.procs|
    ensures var c := CheckBlock(EnterNextChild(t).0, b.procs[i].body);
            var rest := CheckProcs(Exit(c.0).0, b, i + 1);
            CheckProcs(t, b, i) == (rest.0, c.1 + rest.1)
  {
  }

  // ---------------------------------------------------------------------
  // Reference: every procedure checked in its own scope, no cursors

  /** The errors of block `b` checked in scope `s`, each procedure's body in
      the child scope the declaration pass made for it. */
  function RefErrors(sc: seq<Scope>, s: nat, b: Block): nat
    requires ParentsOk(sc) && Shaped(sc, s, b)
    decreases b, 1
  {
    RefProcErrors(sc, s, b, 0) + StmtErrors(Visible(sc, s), b.stmt)
  }

  function RefProcErrors(sc: seq<Scope>, s: nat, b: Block, i: nat): nat
    requires ParentsOk(sc) && Shaped(sc, s, b) && i <= |b.procs|
    decreases b, 0, |b.procs| - i
  {
    if i == |b.procs| then 0
    else
      assert ChildShaped(sc, s, b, i);
      RefErrors(sc, sc[s].children[i], b.procs[i].body) + RefProcErrors(sc, s, b, i + 1)
  }

  /** On a tree the declaration pass built, the cursor-driven walk checks each
      procedure in its own scope: it reports the reference's errors, comes
      back to the scope it started in and changes nothing but cursors. */
  lemma {:induction false} CheckMatchesReference(t: Table, b: Block)
    requires BlockPre(t, b)
    ensures ParentsOk(Shape(t.scopes)) && Shaped(Shape(t.scopes), t.current, b)
    ensures BlockPost(t, CheckBlock(t, b).0, b)
    ensures CheckBlock(t, b).1 == RefErrors(Shape(t.scopes), t.current, b)
    decreases b, 1
  {
    ShapeValid(t);
    ShapeIdempotent(t.scopes);
    ShapedIgnoresCursors(t.scopes, Shape(t.scopes), t.current, b);
    ProcsStart(t, b);
    CheckProcsMatch(t, t, b, 0);
    var t1 := CheckProcs(t, b, 0).0;
    ProcsFinish(t, t1, b);
    VisibleOfShape(t1);
  }

  lemma {:induction false} CheckProcsMatch(t0: Table, t: Table, b: Block, i: nat)
    requires ProcsInv(t0, t, b, i)
    requires ParentsOk(Shape(t0.scopes)) && Shaped(Shape(t0.scopes), t0.current, b)
    ensures ProcsInv(t0, CheckProcs(t, b, i).0, b, |b.procs|)
    ensures CheckProcs(t, b, i).1 == RefProcErrors(Shape(t0.scopes), t0.current, b, i)
    decreases b, 0, |b.procs| - i
  {
    if i < |b.procs| {
      ProcsEnter(t0, t, b, i);
      var t1 := EnterNextChild(t).0;
      var body := b.procs[i].body;
      CheckMatchesReference(t1, body);
      var t2 := CheckBlock(t1, body).0;
      ProcsLeave(t0, t, t2, b, i);
      assert ChildShaped(Shape(t0.scopes), t0.current, b, i);
      assert Shape(t0.scopes)[t0.current].children == t0.scopes[t0.current].children;
      CheckProcsMatch(t0, Exit(t2).0, b, i + 1);
    }
  }

  // ---------------------------------------------------------------------
  // The listener

  /** The pass itself: walks the syntax tree, follows the procedures into
      their scopes and counts the errors it reports. */
  class SemanticChecker {
    const symbolTable: SymbolTable
    var errorCount: nat

    constructor (symbolTable: SymbolTable)
      ensures this.symbolTable == symbolTable && errorCount == 0
    {
      this.symbolTable := symbolTable;
      errorCount := 0;
    }

    method GetErrorCount() returns (n: nat)
      ensures n == errorCount
    {
      n := errorCount;
    }

    /** `reportError`: the message goes to the error stream, which is not
        modelled; the count goes up by one. */
    method ReportError()
      modifies this
      ensures errorCount == old(errorCount) + 1
    {
      errorCount := errorCount + 1;
    }

    /** Walks a whole program with the root scope current. */
    method Walk(p: Program)
      requires symbolTable.Valid()
      modifies this, symbolTable
      ensures var (t, n) := CheckBlock(old(symbolTable.State()), p.block);
              symbolTable.State() == t && errorCount == old(errorCount) + n
      ensures symbolTable.Valid()
    {
      WalkBlock(p.block);
    }

    method WalkBlock(b: Block)
      requires symbolTable.Valid()
      modifies this, symbolTable
      ensures var (t, n) := CheckBlock(old(symbolTable.State()), b);
              symbolTable.State() == t && errorCount == old(errorCount) + n
      ensures symbolTable.Valid()
      decreases b, 1
    {
      ghost var start := symbolTable.State();
      for i := 0 to |b.procs|
        invariant symbolTable.Valid()
        invariant CheckProcs(symbolTable.State(), b, i).0 == CheckProcs(start, b, 0).0
        invariant old(errorCount) + CheckProcs(start, b, 0).1 == errorCount + CheckProcs(symbolTable.State(), b, i).1
      {
        ghost var before := symbolTable.State();
        CheckProcsStep(before, b, i);
        WalkProcedure(b, i);
      }
      WalkStatement(b.stmt);
    }

    /** One procedure declaration: into its scope, through its body, out again. */
    method WalkProcedure(b: Block, i: nat)
      requires symbolTable.Valid() && i < |b.procs|
      modifies this, symbolTable
      ensures var (t2, n) := CheckBlock(EnterNextChild(old(symbolTable.State())).0, b.procs[i].body);
              symbolTable.State() == Exit(t2).0 && errorCount == old(errorCount) + n
      ensures symbolTable.Valid()
      decreases b, 0
    {
      EnterProcedureDeclaration();
      WalkBlock(b.procs[i].body);
      ExitProcedureDeclaration();
    }

    /** `enterProcedureDeclaration`: into the next scope built for a procedure. */
    method EnterProcedureDeclaration()
      requires symbolTable.Valid()
      modifies symbolTable
      ensures symbolTable.State() == EnterNextChild(old(symbolTable.State())).0 && symbolTable.Valid()
    {
      var _ := symbolTable.EnterNextChildScope();
    }

    /** `exitProcedureDeclaration`. */
    method ExitProcedureDeclaration()
      requires symbolTable.Valid()
      modifies symbolTable
      ensures symbolTable.State() == Exit(old(symbolTable.State())).0 && symbolTable.Valid()
    {
      var _ := symbolTable.ExitScope();
    }

    /** `enterAssignmentStatement`: the target must be a declared VAR. */
    method EnterAssignmentStatement(x: string)
      requires symbolTable.Valid()
      modifies this
      ensures errorCount == old(errorCount) + Count(BadTarget(EnvOf(symbolTable.State()), x))
    {
      var symbol := symbolTable.Lookup(x);
      LookupIsFind(symbolTable.State(), x);
      if symbol.None? {
        ReportError();
      } else if symbol.value.kind != Var {
        ReportError();
      }
    }

    /** `enterCallStatement`: the callee must be a declared PROCEDURE. */
    method EnterCallStatement(x: string)
      requires symbolTable.Valid()
      modifies this
      ensures errorCount == old(errorCount) + Count(BadCallee(EnvOf(symbolTable.State()), x))
    {
      var symbol := symbolTable.Lookup(x);
      LookupIsFind(symbolTable.State(), x);
      if symbol.None? {
        ReportError();
      } else if symbol.value.kind != Procedure {
        ReportError();
      }
    }

    /** `enterReadStatement`: every name read into must be a declared VAR. */
    method EnterReadStatement(names: seq<string>)
      requires symbolTable.Valid()
      modifies this
      ensures errorCount == old(errorCount) + ReadErrors(EnvOf(symbolTable.State()), names)
    {
      for i := 0 to |names|
        invariant errorCount == old(errorCount) + ReadErrors(EnvOf(symbolTable.State()), names[..i])
      {
        assert names[..i + 1][..i] == names[..i];
        var symbol := symbolTable.Lookup(names[i]);
        LookupIsFind(symbolTable.State(), names[i]);
        if symbol.None? {
          ReportError();
        } else if symbol.value.kind != Var {
          ReportError();
        }
      }
      assert names[..|names|] == names;
    }

    /** `enterFactor` on a name: it must be declared and not a PROCEDURE. */
    method EnterFactor(x: string)
      requires symbolTable.Valid()
      modifies this
      ensures errorCount == old(errorCount) + Count(BadFactor(EnvOf(symbolTable.State()), x))
    {
      var symbol := symbolTable.Lookup(x);
      LookupIsFind(symbolTable.State(), x);
      if symbol.None? {
        ReportError();
      } else if symbol.value.kind == Procedure {
        ReportError();
      }
    }

    method WalkExpression(e: Expr)
      requires symbolTable.Valid()
      modifies this
      ensures errorCount == old(errorCount) + ExprErrors(EnvOf(symbolTable.State()), e)
    {
      match e
      case Binary(_, l, r) =>
        WalkExpression(l);
        WalkExpression(r);
      case Unary(_, x) => WalkExpression(x);
      case Number(_) =>
      case Variable(x) => EnterFactor(x);
    }

    method WalkCondition(c: Condition)
      requires symbolTable.Valid()
      modifies this
      ensures errorCount == old(errorCount) + CondErrors(EnvOf(symbolTable.State()), c)
    {
      match c
      case Odd(e) => WalkExpression(e);
      case Relational(l, _, r) =>
        WalkExpression(l);
        WalkExpression(r);
    }

    method WalkStatement(st: Statement)
      requires symbolTable.Valid()
      modifies this
      ensures errorCount == old(errorCount) + StmtErrors(EnvOf(symbolTable.State()), st)
      decreases st
    {
      match st
      case Assignment(x, e) =>
        EnterAssignmentStatement(x);
        WalkExpression(e);
      case Call(x) => EnterCallStatement(x);
      case Begin(body) =>
        for i := 0 to |body|
          invariant errorCount == old(errorCount) + StmtsErrors(EnvOf(symbolTable.State()), body[..i])
        {
          assert body[..i + 1][..i] == body[..i];
          WalkStatement(body[i]);
        }
        assert body[..|body|] == body;
      case If(c, th, el) =>
        WalkCondition(c);
        WalkStatement(th);
        if el.Some? {
          WalkStatement(el.value);
        }
      case While(c, d) =>
        WalkCondition(c);
        WalkStatement(d);
      case Read(names) => EnterReadStatement(names);
      case Write(es) =>
        for i := 0 to |es|
          invariant errorCount == old(errorCount) + WriteErrors(EnvOf(symbolTable.State()), es[..i])
        {
          assert es[..i + 1][..i] == es[..i];
          WalkExpression(es[i]);
        }
        assert es[..|es|] == es;
      case Skip =>
    }
  }
}

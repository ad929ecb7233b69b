/** The block, procedure and program parts of the code generator
    (`codegen/ASTCodeGenerator.java`): each block reserves its frame and
    jumps over the code of its procedures, each procedure is generated in
    the scope the declaration pass made for it, and the program wraps the
    main block in the data section and `main`. */
module Generator {
  import opened Wrappers
  import opened Symbols
  import opened Ast
  import opened ScopeTree
  import opened SymbolTables
  import opened Declarations
  import opened Traversal
  import opened Checking
  import opened Machine
  import opened CodeGen

  // ---------------------------------------------------------------------
  // Code, driven by the table's cursors as the generator is

  /** `sub $total, %rsp` when the frame needs room, then the jump over the
      procedures to the block's own statement at label `k`. */
  function FrameCode(localsSize: int, k: nat): seq<Instr> {
    var total := localsSize + Padding(localsSize);
    (if total > 0 then [SubImm(total, Rsp)] else []) + [Jmp(Numbered(k))]
  }

  /** A procedure's entry: its label, a new frame base and the static link
      received in `%r10` stored just below it. */
  function Prologue(name: string): seq<Instr> {
    [Def(ProcEntry(name)), PushReg(Rbp), Mov(Rsp, Rbp), PushReg(R10)]
  }

  /** The table after generating `b` from `t`, the code and the next free
      label; None when a name the code needs is not visible. */
  function GenBlock(t: Table, k: nat, b: Block): (r: Option<(Table, seq<Instr>, nat)>)
    requires Valid(t)
    ensures r.Some? ==> Valid(r.value.0)
    decreases b, 1
  {
    var procs :- GenProcs(t, b, 0, k + 1);
    var body :- GenStmt(EnvOf(procs.0), Level(procs.0), procs.2, b.stmt);
    Some((procs.0, FrameCode(LocalsSize(t), k) + procs.1 + [Def(Numbered(k))] + body.0, body.1))
  }

  function GenProcs(t: Table, b: Block, i: nat, k: nat): (r: Option<(Table, seq<Instr>, nat)>)
    requires Valid(t) && i <= |b.procs|
    ensures r.Some? ==> Valid(r.value.0)
    decreases b, 0, |b.procs| - i
  {
    if i == |b.procs| then Some((t, [], k))
    else
      var p :- GenProc(t, k, b.procs[i]);
      var rest :- GenProcs(p.0, b, i + 1, p.2);
      Some((rest.0, p.1 + rest.1, rest.2))
  }

  /** A procedure: its prologue, its block generated in the next child
      scope, and `leave; ret`. */
  function GenProc(t: Table, k: nat, p: ProcDecl): (r: Option<(Table, seq<Instr>, nat)>)
    requires Valid(t)
    ensures r.Some? ==> Valid(r.value.0)
    decreases p.body, 2
  {
    var t1 := EnterNextChild(t).0;
    var body :- GenBlock(t1, k, p.body);
    Some((Exit(body.0).0, Prologue(p.name) + body.1 + [Instr.Leave, Ret], body.2))
  }

  /** The data section with the two format strings, `main` with its frame and
      a zero static link, the main block, and `mov $0, %rax; leave; ret`. */
  function Header(): seq<Instr> {
    [Dir(DataSection), Dir(FormatInString), Dir(FormatOutString), Dir(TextSection), Dir(GlobalMain),
     Def(MainEntry), PushReg(Rbp), Mov(Rsp, Rbp), PushImm(0)]
  }

  function GenProgram(t: Table, k: nat, p: Program): (r: Option<(Table, seq<Instr>, nat)>)
    requires Valid(t)
    ensures r.Some? ==> Valid(r.value.0)
  {
    var body :- GenBlock(t, k, p.block);
    Some((body.0, Header() + body.1 + [MovImm(0, Rax), Instr.Leave, Ret], body.2))
  }

  // ---------------------------------------------------------------------
  // Labels

  /** Code with entry labels and section directives but no numbered label. */
  lemma NoNumberedLabels(code: seq<Instr>, k: nat)
    requires forall i :: 0 <= i < |code| ==> !code[i].Jmp? && !code[i].Jcc? && !(code[i].Def? && code[i].defined.Numbered?)
    ensures Labelled(code, k, k)
  {
    forall n: nat ensures multiset(code)[Def(Numbered(n))] == 0 {
      assert Def(Numbered(n)) !in code;
    }
  }

  /** A block takes label k for its statement and the labels after it for
      its procedures and then its statement. */
  lemma BlockCodeLabelled(ls: int, k: nat, cp: seq<Instr>, cb: seq<Instr>, k1: nat, k2: nat)
    requires Labelled(cp, k + 1, k1) && Labelled(cb, k1, k2)
    ensures Labelled(FrameCode(ls, k) + cp + [Def(Numbered(k))] + cb, k, k2)
  {
    var f := FrameCode(ls, k);
    assert DefinesExactly(f, k, k) by {
      forall n: nat ensures multiset(f)[Def(Numbered(n))] == 0 {
        assert Def(Numbered(n)) !in f;
      }
    }
    assert JumpsWithin(f, k, k2) by {
      forall i | 0 <= i < |f| ensures TargetWithin(f[i], k, k2) {}
    }
    var d := [Def(Numbered(k))];
    DefineOne(k);
    assert multiset(f + cp + d + cb) == multiset(f) + multiset(cp) + multiset(d) + multiset(cb);
    assert DefinesExactly(f + cp + d + cb, k, k2);
    JumpsWithinWiden(cp, k + 1, k1, k, k2);
    JumpsWithinWiden(cb, k1, k2, k, k2);
    assert JumpsWithin(d, k, k2) by {
      assert TargetWithin(d[0], k, k2);
    }
    JumpsJoin(f, cp, k, k2);
    JumpsJoin(f + cp, d, k, k2);
    JumpsJoin(f + cp + d, cb, k, k2);
  }

  lemma ProcCodeLabelled(name: string, cb: seq<Instr>, k: nat, k1: nat)
    requires Labelled(cb, k, k1)
    ensures Labelled(Prologue(name) + cb + [Instr.Leave, Ret], k, k1)
  {
    NoNumberedLabels(Prologue(name), k);
    NoNumberedLabels([Instr.Leave, Ret], k1);
    LabelledJoin(Prologue(name), cb, k, k, k1);
    LabelledJoin(Prologue(name) + cb, [Instr.Leave, Ret], k, k1, k1);
  }

  /** A block started with `k` free takes the labels k..k'-1: it defines
      each exactly once and jumps to no other numbered label. */
  lemma {:induction false} BlockLabels(t: Table, k: nat, b: Block)
    requires Valid(t) && GenBlock(t, k, b).Some?
    ensures Labelled(GenBlock(t, k, b).value.1, k, GenBlock(t, k, b).value.2)
    decreases b, 1
  {
    var procs := GenProcs(t, b, 0, k + 1).value;
    ProcsLabels(t, b, 0, k + 1);
    var body := GenStmt(EnvOf(procs.0), Level(procs.0), procs.2, b.stmt).value;
    StmtLabels(EnvOf(procs.0), Level(procs.0), procs.2, b.stmt);
    BlockCodeLabelled(LocalsSize(t), k, procs.1, body.0, procs.2, body.1);
    var r := GenBlock(t, k, b).value;
    assert r.1 == FrameCode(LocalsSize(t), k) + procs.1 + [Def(Numbered(k))] + body.0 && r.2 == body.1;
  }

  lemma {:induction false} ProcsLabels(t: Table, b: Block, i: nat, k: nat)
    requires Valid(t) && i <= |b.procs| && GenProcs(t, b, i, k).Some?
    ensures Labelled(GenProcs(t, b, i, k).value.1, k, GenProcs(t, b, i, k).value.2)
    decreases b, 0, |b.procs| - i
  {
    if i == |b.procs| {
      NoJumpsLabelled([], k);
    } else {
      var p := GenProc(t, k, b.procs[i]).value;
      ProcLabels(t, k, b.procs[i]);
      ProcsLabels(p.0, b, i + 1, p.2);
      var rest := GenProcs(p.0, b, i + 1, p.2).value;
      LabelledJoin(p.1, rest.1, k, p.2, rest.2);
      var r := GenProcs(t, b, i, k).value;
      assert r.1 == p.1 + rest.1 && r.2 == rest.2;
    }
  }

  lemma {:induction false} ProcLabels(t: Table, k: nat, p: ProcDecl)
    requires Valid(t) && GenProc(t, k, p).Some?
    ensures Labelled(GenProc(t, k, p).value.1, k, GenProc(t, k, p).value.2)
    decreases p.body, 2
  {
    var t1 := EnterNextChild(t).0;
    var body := GenBlock(t1, k, p.body).value;
    BlockLabels(t1, k, p.body);
    ProcCodeLabelled(p.name, body.1, k, body.2);
    var r := GenProc(t, k, p).value;
    assert r.1 == Prologue(p.name) + body.1 + [Instr.Leave, Ret] && r.2 == body.2;
  }

  lemma WrapperLabels(cb: seq<Instr>, k: nat, k1: nat)
    requires Labelled(cb, k, k1)
    ensures Labelled(Header() + cb + [MovImm(0, Rax), Instr.Leave, Ret], k, k1)
  {
    HeaderLabels(k);
    NoNumberedLabels([MovImm(0, Rax), Instr.Leave, Ret], k1);
    LabelledJoin(Header(), cb, k, k, k1);
    LabelledJoin(Header() + cb, [MovImm(0, Rax), Instr.Leave, Ret], k, k1, k1);
  }

  lemma HeaderLabels(k: nat)
    ensures Labelled(Header(), k, k)
  {
    NoNumberedLabels(Header(), k);
  }

  /** The whole program started with `k` free takes the labels k..k'-1. */
  lemma ProgramLabels(t: Table, k: nat, p: Program)
    requires Valid(t) && GenProgram(t, k, p).Some?
    ensures Labelled(GenProgram(t, k, p).value.1, k, GenProgram(t, k, p).value.2)
  {
    var body := GenBlock(t, k, p.block).value;
    BlockLabels(t, k, p.block);
    WrapperLabels(body.1, k, body.2);
    var r := GenProgram(t, k, p).value;
    assert r.1 == Header() + body.1 + [MovImm(0, Rax), Instr.Leave, Ret] && r.2 == body.2;
  }

  // ---------------------------------------------------------------------
  // Generation after a clean check

  /** The generator enters and leaves scopes exactly as the checker does, so
      when the checker counts no error in `b` generation succeeds and leaves
      the table where the checker left it. */
  lemma {:induction false} GenFollowsCheck(t: Table, k: nat, b: Block)
    requires Valid(t) && CheckBlock(t, b).1 == 0
    ensures GenBlock(t, k, b).Some? && GenBlock(t, k, b).value.0 == CheckBlock(t, b).0
    decreases b, 1
  {
    ProcsFollowCheck(t, b, 0, k + 1);
    var procs := GenProcs(t, b, 0, k + 1).value;
    StmtGenerates(EnvOf(procs.0), Level(procs.0), procs.2, b.stmt);
  }

  lemma {:induction false} ProcsFollowCheck(t: Table, b: Block, i: nat, k: nat)
    requires Valid(t) && i <= |b.procs| && CheckProcs(t, b, i).1 == 0
    ensures GenProcs(t, b, i, k).Some? && GenProcs(t, b, i, k).value.0 == CheckProcs(t, b, i).0
    decreases b, 0, |b.procs| - i
  {
    if i < |b.procs| {
      var t1 := EnterNextChild(t).0;
      GenFollowsCheck(t1, k, b.procs[i].body);
      var p := GenProc(t, k, b.procs[i]).value;
      assert p.0 == Exit(CheckBlock(t1, b.procs[i].body).0).0;
      ProcsFollowCheck(p.0, b, i + 1, p.2);
    }
  }

  // ---------------------------------------------------------------------
  // The compiler's driver

  /** Declaration pass on a new table, reset, semantic check, and, when it
      counts no error, reset again and generate. */
  function Compile(p: Program): Option<seq<Instr>> {
    var t1 := DeclareBlock(NewTable(), p.block);
    var t2 := ResetCursors(t1);
    var (t3, n) := CheckBlock(t2, p.block);
    if n > 0 then None
    else
      var g :- GenProgram(ResetCursors(t3), 0, p);
      Some(g.1)
  }

  /** The table the checker and the generator walk: the declaration pass's
      tree with every cursor reset. */
  function ReadyTable(p: Program): (t: Table)
    ensures BlockPre(t, p.block) && t.current == 0
  {
    BuildFromRoot(p);
    var t1 := DeclareBlock(NewTable(), p.block);
    ResetReady(t1, p);
    ResetCursors(t1)
  }

  /** Compilation succeeds exactly when the program has no semantic error,
      each procedure checked in the scope the declaration pass made for it;
      the code it then produces defines each label it uses exactly once. */
  lemma CompileSucceedsIffNoErrors(p: Program)
    ensures ParentsOk(Shape(ReadyTable(p).scopes)) && Shaped(Shape(ReadyTable(p).scopes), 0, p.block)
    ensures Compile(p).Some? <==> RefErrors(Shape(ReadyTable(p).scopes), 0, p.block) == 0
    ensures Compile(p).Some? ==> exists k: nat :: Labelled(Compile(p).value, 0, k)
  {
    var t2 := ReadyTable(p);
    CheckMatchesReference(t2, p.block);
    var (t3, n) := CheckBlock(t2, p.block);
    if n == 0 {
      var t4 := ResetCursors(t3);
      ShapeIdempotent(DeclareBlock(NewTable(), p.block).scopes);
      assert t4 == t2;
      GenFollowsCheck(t4, 0, p.block);
      ProgramLabels(t4, 0, p);
      var g := GenProgram(t4, 0, p).value;
      assert Labelled(Compile(p).value, 0, g.2);
    }
  }
}

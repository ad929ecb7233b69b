/** The target of the code generator: the x86-64 instructions it emits, as
    data; the text each one is printed as; and an abstract machine that
    runs the fragment the expressions, conditions and assignments use.

    The machine is an idealisation: integers are unbounded, the operand
    stack is a sequence of its own (apart from the memory that holds the
    frames), and only forward jumps are followed, which is all that
    expression and condition code contains. */
module Machine {
  import opened Wrappers
  import opened Symbols

  datatype Reg = Rax | Rbx | Rdx | Rbp | Rsp | Rsi | Rdi | R10

  /** The conditional jumps, one per relational operator. */
  datatype Jump = Je | Jne | Jl | Jle | Jg | Jge

  /** `L<n>` from the label counter, `proc_<name>`, and `main`. */
  datatype Label = Numbered(n: nat) | ProcEntry(name: string) | MainEntry

  datatype Directive = DataSection | FormatInString | FormatOutString | TextSection | GlobalMain
  datatype Format = FmtIn | FmtOut
  datatype Extern = Scanf | Printf

  datatype Instr =
    | Dir(directive: Directive)
    | Def(defined: Label)
    | PushReg(reg: Reg)
    | PushImm(imm: int)
    | Pop(reg: Reg)
    | Mov(src: Reg, dst: Reg)
    | MovImm(imm: int, dst: Reg)
    | Load(disp: int, base: Reg, dst: Reg)      // mov disp(base), dst
    | Store(src: Reg, disp: int, base: Reg)     // mov src, disp(base)
    | Lea(disp: int, base: Reg, dst: Reg)
    | LeaFormat(format: Format, dst: Reg)
    | AddReg(src: Reg, dst: Reg)
    | SubReg(src: Reg, dst: Reg)
    | ImulReg(src: Reg, dst: Reg)
    | Cqo
    | Idiv(divisor: Reg)
    | Neg(reg: Reg)
    | AndOne(reg: Reg)
    | Cmp(src: Reg, dst: Reg)
    | CmpImm(imm: int, reg: Reg)
    | SubImm(imm: int, reg: Reg)
    | Jmp(target: Label)
    | Jcc(jump: Jump, target: Label)
    | CallLabel(target: Label)
    | CallExtern(callee: Extern)
    | Leave
    | Ret

  // ---------------------------------------------------------------------
  // Text

  function RegName(r: Reg): string {
    match r
    case Rax => "%rax" case Rbx => "%rbx" case Rdx => "%rdx" case Rbp => "%rbp"
    case Rsp => "%rsp" case Rsi => "%rsi" case Rdi => "%rdi" case R10 => "%r10"
  }

  function JumpName(j: Jump): string {
    match j
    case Je => "je" case Jne => "jne" case Jl => "jl"
    case Jle => "jle" case Jg => "jg" case Jge => "jge"
  }

  function LabelName(l: Label): string {
    match l
    case Numbered(n) => "L" + IntToString(n)
    case ProcEntry(name) => "proc_" + name
    case MainEntry => "main"
  }

  function Address(disp: int, base: Reg): string {
    IntToString(disp) + "(" + RegName(base) + ")"
  }

  function Mnemonic(i: Instr): string {
    match i
    case Dir(_) => ""
    case Def(_) => ""
    case PushReg(r) => "push " + RegName(r)
    case PushImm(v) => "push $" + IntToString(v)
    case Pop(r) => "pop " + RegName(r)
    case Mov(s, d) => "mov " + RegName(s) + ", " + RegName(d)
    case MovImm(v, d) => "mov $" + IntToString(v) + ", " + RegName(d)
    case Load(disp, b, d) => "mov " + Address(disp, b) + ", " + RegName(d)
    case Store(s, disp, b) => "mov " + RegName(s) + ", " + Address(disp, b)
    case Lea(disp, b, d) => "lea " + Address(disp, b) + ", " + RegName(d)
    case LeaFormat(f, d) => "lea " + (if f == FmtIn then "fmt_in" else "fmt_out") + "(%rip), " + RegName(d)
    case AddReg(s, d) => "add " + RegName(s) + ", " + RegName(d)
    case SubReg(s, d) => "sub " + RegName(s) + ", " + RegName(d)
    case ImulReg(s, d) => "imul " + RegName(s) + ", " + RegName(d)
    case Cqo => "cqo"
    case Idiv(r) => "idiv " + RegName(r)
    case Neg(r) => "neg " + RegName(r)
    case AndOne(r) => "and $1, " + RegName(r)
    case Cmp(s, d) => "cmp " + RegName(s) + ", " + RegName(d)
    case CmpImm(v, r) => "cmp $" + IntToString(v) + ", " + RegName(r)
    case SubImm(v, r) => "sub $" + IntToString(v) + ", " + RegName(r)
    case Jmp(l) => "jmp " + LabelName(l)
    case Jcc(j, l) => JumpName(j) + " " + LabelName(l)
    case CallLabel(l) => "call " + LabelName(l)
    case CallExtern(f) => if f == Scanf then "call scanf@PLT" else "call printf@PLT"
    case Leave => "leave"
    case Ret => "ret"
  }

  /** One line of output: directives and labels at the margin, instructions
      indented by a tab. */
  function Render(i: Instr): string {
    match i
    case Dir(DataSection) => ".section .data\n"
    case Dir(FormatInString) => "fmt_in: .string \"%ld\"\n"
    case Dir(FormatOutString) => "fmt_out: .string \"%ld\\n\"\n"
    case Dir(TextSection) => ".section .text\n"
    case Dir(GlobalMain) => ".global main\n"
    case Def(l) => LabelName(l) + ":\n"
    case _ => "\t" + Mnemonic(i) + "\n"
  }

  function Assembly(code: seq<Instr>): string {
    if code == [] then "" else Assembly(code[..|code| - 1]) + Render(code[|code| - 1])
  }

  // ---------------------------------------------------------------------
  // Execution

  /** Registers, an operand stack, the memory holding the frames, and the
      two operands of the last comparison. */
  datatype Cpu = Cpu(stack: seq<int>, regs: map<Reg, int>, mem: map<int, int>, flags: (int, int))

  function Get(m: Cpu, r: Reg): int {
    if r in m.regs then m.regs[r] else 0
  }

  function Set(m: Cpu, r: Reg, v: int): Cpu {
    m.(regs := m.regs[r := v])
  }

  /** Division truncating toward zero, as `idiv` does. */
  function TDiv(a: int, b: int): int
    requires b != 0
  {
    var q := Abs(a) / Abs(b);
    if (a < 0) == (b < 0) then q else -q
  }

  function Abs(a: int): nat { if a < 0 then -a else a }

  /** `cmp src, dst` compares dst with src; the jump tests dst against src. */
  predicate Holds(j: Jump, flags: (int, int)) {
    var (x, y) := flags;
    match j
    case Je => x == y
    case Jne => x != y
    case Jl => x < y
    case Jle => x <= y
    case Jg => x > y
    case Jge => x >= y
  }

  /** One instruction other than a label or a jump; None for a fault
      (empty stack, unmapped address, division by zero) or an instruction
      outside the modelled fragment. */
  function Step(m: Cpu, i: Instr): Option<Cpu> {
    match i
    case PushReg(r) => Some(m.(stack := m.stack + [Get(m, r)]))
    case PushImm(v) => Some(m.(stack := m.stack + [v]))
    case Pop(r) =>
      if m.stack == [] then None
      else Some(Set(m, r, m.stack[|m.stack| - 1]).(stack := m.stack[..|m.stack| - 1]))
    case Mov(s, d) => Some(Set(m, d, Get(m, s)))
    case MovImm(v, d) => Some(Set(m, d, v))
    case Load(disp, b, d) =>
      var a := Get(m, b) + disp;
      if a in m.mem then Some(Set(m, d, m.mem[a])) else None
    case Store(s, disp, b) => Some(m.(mem := m.mem[Get(m, b) + disp := Get(m, s)]))
    case AddReg(s, d) => Some(Set(m, d, Get(m, d) + Get(m, s)))
    case SubReg(s, d) => Some(Set(m, d, Get(m, d) - Get(m, s)))
    case ImulReg(s, d) => Some(Set(m, d, Get(m, d) * Get(m, s)))
    case Cqo => Some(Set(m, Rdx, if Get(m, Rax) < 0 then -1 else 0))
    case Idiv(r) =>
      var a, b := Get(m, Rax), Get(m, r);
      if b == 0 then None
      else Some(Set(Set(m, Rax, TDiv(a, b)), Rdx, a - b * TDiv(a, b)))
    case Neg(r) => Some(Set(m, r, -Get(m, r)))
    case AndOne(r) => Some(Set(m, r, Get(m, r) % 2))
    case Cmp(s, d) => Some(m.(flags := (Get(m, d), Get(m, s))))
    case CmpImm(v, r) => Some(m.(flags := (Get(m, r), v)))
    case _ => None
  }

  /** The code after the first definition of `l`. */
  function After(code: seq<Instr>, l: Label): (r: Option<seq<Instr>>)
    ensures r.Some? ==> |r.value| < |code|
  {
    if code == [] then None
    else if code[0] == Def(l) then Some(code[1..])
    else After(code[1..], l)
  }

  /** Runs `code` from its first instruction to its end, following forward
      jumps. */
  function Exec(code: seq<Instr>, m: Cpu): Option<Cpu>
    decreases |code|
  {
    if code == [] then Some(m)
    else if code[0].Def? then Exec(code[1..], m)
    else if code[0].Jmp? || (code[0].Jcc? && Holds(code[0].jump, m.flags)) then
      var rest := After(code[1..], code[0].target);
      if rest.None? then None else Exec(rest.value, m)
    else if code[0].Jcc? then Exec(code[1..], m)
    else
      var m' := Step(m, code[0]);
      if m'.None? then None else Exec(code[1..], m'.value)
  }

  /** Every jump lands on a label defined further on in the same code. */
  predicate Closed(code: seq<Instr>)
    decreases |code|
  {
    code == [] ||
    (((code[0].Jmp? || code[0].Jcc?) ==> Def(code[0].target) in code[1..]) && Closed(code[1..]))
  }

  lemma {:induction false} AfterAppend(a: seq<Instr>, b: seq<Instr>, l: Label)
    requires Def(l) in a
    ensures After(a, l).Some? && After(a + b, l) == Some(After(a, l).value + b)
    decreases |a|
  {
    assert (a + b)[1..] == a[1..] + b;
    if a[0] != Def(l) { AfterAppend(a[1..], b, l); }
  }

  lemma {:induction false} AfterClosed(a: seq<Instr>, l: Label)
    requires Closed(a) && After(a, l).Some?
    ensures Closed(After(a, l).value)
    decreases |a|
  {
    if a[0] != Def(l) { AfterClosed(a[1..], l); }
  }

  function Then(r: Option<Cpu>, b: seq<Instr>): Option<Cpu> {
    match r
    case None => None
    case Some(m) => Exec(b, m)
  }

  /** Running closed code and then more code is running the two in turn. */
  lemma {:induction false} ExecAppend(a: seq<Instr>, b: seq<Instr>, m: Cpu)
    requires Closed(a)
    ensures Exec(a + b, m) == Then(Exec(a, m), b)
    decreases |a|
  {
    if a == [] {
      assert a + b == b;
    } else {
      assert (a + b)[0] == a[0];
      assert (a + b)[1..] == a[1..] + b;
      if a[0].Def? {
        ExecAppend(a[1..], b, m);
      } else if a[0].Jmp? || (a[0].Jcc? && Holds(a[0].jump, m.flags)) {
        AfterAppend(a[1..], b, a[0].target);
        AfterClosed(a[1..], a[0].target);
        ExecAppend(After(a[1..], a[0].target).value, b, m);
      } else if a[0].Jcc? {
        ExecAppend(a[1..], b, m);
      } else if Step(m, a[0]).Some? {
        ExecAppend(a[1..], b, Step(m, a[0]).value);
      }
    }
  }

  lemma {:induction false} ClosedAppend(a: seq<Instr>, b: seq<Instr>)
    requires Closed(a) && Closed(b)
    ensures Closed(a + b)
    decreases |a|
  {
    if a == [] {
      assert a + b == b;
    } else {
      assert (a + b)[1..] == a[1..] + b;
      ClosedAppend(a[1..], b);
    }
  }

  /** Jump-free code is closed. */
  lemma {:induction false} StraightClosed(a: seq<Instr>)
    requires forall i :: 0 <= i < |a| ==> !a[i].Jmp? && !a[i].Jcc?
    ensures Closed(a)
    decreases |a|
  {
    if a != [] { StraightClosed(a[1..]); }
  }
}

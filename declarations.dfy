/** The declaration pass (`symbolTable/PL0SymbolTableBuilder.java`): in
    source order it declares a block's constants, then its variables, then
    each procedure, whose name goes into the enclosing scope before a new
    child scope is opened for its body.  The walk is the tree listener's
    pre-order: consts, vars, then per procedure declare/enter, the body,
    exit. */
module Declarations {
  import opened Wrappers
  import opened Symbols
  import opened Ast
  import opened ScopeTree
  import opened SymbolTables

  // ---------------------------------------------------------------------
  // Specification

  /** Declares the constants left to right; a duplicate is skipped. */
  function DeclareConsts(t: Table, cs: seq<ConstDecl>): (r: Table)
    requires Valid(t)
    ensures Valid(r) && |r.scopes| == |t.scopes| && r.current == t.current
    ensures forall i :: 0 <= i < |t.scopes| && i != t.current ==> r.scopes[i] == t.scopes[i]
    ensures CurrentScope(r).(symbols := CurrentScope(t).symbols) == CurrentScope(t)
    decreases |cs|
  {
    if cs == [] then t
    else
      var c := cs[|cs| - 1];
      Declare(DeclareConsts(t, cs[..|cs| - 1]), c.name, Const, Some(c.value)).0
  }

  /** Declares the variables left to right; a duplicate is skipped. */
  function DeclareVars(t: Table, vs: seq<VarDecl>): (r: Table)
    requires Valid(t)
    ensures Valid(r) && |r.scopes| == |t.scopes| && r.current == t.current
    ensures forall i :: 0 <= i < |t.scopes| && i != t.current ==> r.scopes[i] == t.scopes[i]
    ensures CurrentScope(r).(symbols := CurrentScope(t).symbols, currentOffset := CurrentScope(t).currentOffset)
            == CurrentScope(t)
    decreases |vs|
  {
    if vs == [] then t
    else Declare(DeclareVars(t, vs[..|vs| - 1]), vs[|vs| - 1].name, Var, None).0
  }

  /** The whole pass over a block whose scope is current. */
  function DeclareBlock(t: Table, b: Block): (r: Table)
    requires Valid(t)
    ensures Valid(r) && r.current == t.current && |r.scopes| >= |t.scopes|
    ensures forall i :: 0 <= i < |t.scopes| && i != t.current ==> r.scopes[i] == t.scopes[i]
    ensures CurrentScope(r).parent == CurrentScope(t).parent
    ensures CurrentScope(r).nestingLevel == CurrentScope(t).nestingLevel
    ensures CurrentScope(r).nextChildIndex == CurrentScope(t).nextChildIndex
    ensures |CurrentScope(r).children| == |CurrentScope(t).children| + |b.procs|
    decreases b, 1
  {
    DeclareProcs(DeclareVars(DeclareConsts(t, b.consts), b.vars), b, 0)
  }

  /** The procedures of `b` from the `i`-th on. */
  function DeclareProcs(t: Table, b: Block, i: nat): (r: Table)
    requires Valid(t) && i <= |b.procs|
    ensures Valid(r) && r.current == t.current && |r.scopes| >= |t.scopes|
    ensures forall j :: 0 <= j < |t.scopes| && j != t.current ==> r.scopes[j] == t.scopes[j]
    ensures CurrentScope(r).parent == CurrentScope(t).parent
    ensures CurrentScope(r).nestingLevel == CurrentScope(t).nestingLevel
    ensures CurrentScope(r).nextChildIndex == CurrentScope(t).nextChildIndex
    ensures |CurrentScope(r).children| == |CurrentScope(t).children| + (|b.procs| - i)
    decreases b, 0, |b.procs| - i
  {
    if i == |b.procs| then t
    else
      var p := b.procs[i];
      var t1 := Declare(t, p.name, Procedure, None).0;
      var t2 := EnterNew(t1);
      var t3 := DeclareBlock(t2, p.body);
      var t4 := Exit(t3).0;
      DeclareProcs(t4, b, i + 1)
  }

  // ---------------------------------------------------------------------
  // The shape of the scope tree the pass builds

  /** Number of scopes a block owns: its own and those of all nested procedures. */
  function Size(b: Block): (n: nat)
    ensures n >= 1
    decreases b, 1
  {
    1 + Span(b, |b.procs|)
  }

  /** Number of scopes owned by the first `i` procedures of `b`. */
  function Span(b: Block, i: nat): nat
    requires i <= |b.procs|
    decreases b, 0, i
  {
    if i == 0 then 0 else Span(b, i - 1) + Size(b.procs[i - 1].body)
  }

  lemma {:induction false} SpanMonotonic(b: Block, i: nat, j: nat)
    requires i <= j <= |b.procs|
    ensures Span(b, i) <= Span(b, j)
    decreases j
  {
    if i < j { SpanMonotonic(b, i, j - 1); }
  }

  /** The scopes of block `b` sit at `s` and the indices after it, in the
      pre-order of the procedure declarations: the `i`-th procedure's scope is
      the `i`-th child of `s`, and its subtree follows those of the earlier
      ones. */
  ghost predicate Shaped(sc: seq<Scope>, s: nat, b: Block)
    decreases b, 1
  {
    && s + Size(b) <= |sc|
    && |sc[s].children| == |b.procs|
    && forall i :: 0 <= i < |b.procs| ==> ChildShaped(sc, s, b, i)
  }

  /** The `i`-th procedure of `b`, whose block scope is at `s`. */
  ghost predicate ChildShaped(sc: seq<Scope>, s: nat, b: Block, i: nat)
    requires i < |b.procs|
    decreases b, 0
  {
    && s < |sc| && i < |sc[s].children|
    && sc[s].children[i] == s + 1 + Span(b, i)
    && Shaped(sc, s + 1 + Span(b, i), b.procs[i].body)
  }

  /** Shaped reads only the children lists of the block's own scopes. */
  lemma {:induction false} ShapedFrame(sc: seq<Scope>, sc': seq<Scope>, s: nat, b: Block)
    requires Shaped(sc, s, b) && s + Size(b) <= |sc'|
    requires forall j :: s <= j < s + Size(b) ==> sc'[j].children == sc[j].children
    ensures Shaped(sc', s, b)
    decreases b
  {
    forall i | 0 <= i < |b.procs|
      ensures ChildShaped(sc', s, b, i)
    {
      assert ChildShaped(sc, s, b, i);
      var c := s + 1 + Span(b, i);
      var body := b.procs[i].body;
      SpanMonotonic(b, i + 1, |b.procs|);
      assert c + Size(body) <= s + Size(b);
      ShapedFrame(sc, sc', c, body);
    }
  }

  ghost predicate ZeroCursors(sc: seq<Scope>) {
    forall j :: 0 <= j < |sc| ==> sc[j].nextChildIndex == 0
  }

  /** Run on the newest scope, still childless, the pass lays out the block's
      scopes as Shaped says, appends exactly Size(b) - 1 scopes, touches no
      earlier scope and moves no cursor. */
  lemma {:induction false} DeclareBlockShaped(t: Table, b: Block)
    requires Valid(t) && t.current == |t.scopes| - 1
    requires CurrentScope(t).children == [] && ZeroCursors(t.scopes)
    ensures var r := DeclareBlock(t, b);
            && |r.scopes| == |t.scopes| + Size(b) - 1
            && Shaped(r.scopes, t.current, b)
            && ZeroCursors(r.scopes)
    decreases b, 1
  {
    var t1 := DeclareVars(DeclareConsts(t, b.consts), b.vars);
    assert ZeroCursors(t1.scopes) by {
      assert CurrentScope(t1).nextChildIndex == 0;
    }
    DeclareProcsShaped(t1, b, 0);
  }

  /** From the initial table, the pass produces one scope per block of the
      program, laid out in pre-order, with every cursor still at zero and the
      root current again. */
  lemma BuildFromRoot(p: Program)
    ensures var r := DeclareBlock(NewTable(), p.block);
            && r.current == 0 && |r.scopes| == Size(p.block)
            && Shaped(r.scopes, 0, p.block) && ZeroCursors(r.scopes)
  {
    DeclareBlockShaped(NewTable(), p.block);
  }

  lemma {:induction false} DeclareProcsShaped(t: Table, b: Block, i: nat)
    requires Valid(t) && i <= |b.procs|
    requires |t.scopes| == t.current + 1 + Span(b, i) && ZeroCursors(t.scopes)
    requires |CurrentScope(t).children| == i
    requires forall j :: 0 <= j < i ==> ChildShaped(t.scopes, t.current, b, j)
    ensures var r := DeclareProcs(t, b, i);
            && |r.scopes| == t.current + Size(b)
            && Shaped(r.scopes, t.current, b)
            && ZeroCursors(r.scopes)
    decreases b, 0, |b.procs| - i
  {
    if i < |b.procs| {
      var t4 := ProcStep(t, b, i);
      DeclareProcsShaped(t4, b, i + 1);
    }
  }

  /** One procedure declaration of DeclareProcsShaped's induction. */
  lemma {:induction false} ProcStep(t: Table, b: Block, i: nat) returns (t4: Table)
    requires Valid(t) && i < |b.procs|
    requires |t.scopes| == t.current + 1 + Span(b, i) && ZeroCursors(t.scopes)
    requires |CurrentScope(t).children| == i
    requires forall j :: 0 <= j < i ==> ChildShaped(t.scopes, t.current, b, j)
    ensures Valid(t4) && t4.current == t.current
    ensures t4 == Exit(DeclareBlock(EnterNew(Declare(t, b.procs[i].name, Procedure, None).0), b.procs[i].body)).0
    ensures |t4.scopes| == t4.current + 1 + Span(b, i + 1) && ZeroCursors(t4.scopes)
    ensures |CurrentScope(t4).children| == i + 1
    ensures forall j :: 0 <= j < i + 1 ==> ChildShaped(t4.scopes, t4.current, b, j)
    decreases b, 0, |b.procs| - i - 1
  {
    var s := t.current;
    var p := b.procs[i];
    var t1 := Declare(t, p.name, Procedure, None).0;
    var t2 := EnterNew(t1);
    var c := t2.current;
    assert c == s + 1 + Span(b, i);
    assert ZeroCursors(t2.scopes) by {
      assert t2.scopes[s].nextChildIndex == t.scopes[s].nextChildIndex;
    }
    DeclareBlockShaped(t2, p.body);
    var t3 := DeclareBlock(t2, p.body);
    t4 := Exit(t3).0;
    assert t3.scopes[c].parent == Some(s);
    assert t4.current == s && t4.scopes == t3.scopes;
    assert Span(b, i + 1) == Span(b, i) + Size(p.body);
    assert t3.scopes[s] == t2.scopes[s];
    assert CurrentScope(t4).children == CurrentScope(t).children + [c];
    assert ChildShaped(t4.scopes, s, b, i);
    forall k | s < k < c ensures t4.scopes[k].children == t.scopes[k].children {
      assert t2.scopes[k] == t.scopes[k];
    }
    EarlierChildrenStay(t.scopes, t4.scopes, s, b, i);
  }

  /** Children already laid out keep their shape while later ones are added. */
  lemma EarlierChildrenStay(sc: seq<Scope>, sc': seq<Scope>, s: nat, b: Block, i: nat)
    requires i <= |b.procs| && s < |sc| && s < |sc'| && s + 1 + Span(b, i) <= |sc| <= |sc'|
    requires |sc[s].children| == i <= |sc'[s].children| && sc'[s].children[..i] == sc[s].children
    requires forall k :: s < k < s + 1 + Span(b, i) ==> sc'[k].children == sc[k].children
    requires forall j :: 0 <= j < i ==> ChildShaped(sc, s, b, j)
    ensures forall j :: 0 <= j < i ==> ChildShaped(sc', s, b, j)
  {
    forall j | 0 <= j < i
      ensures ChildShaped(sc', s, b, j)
    {
      OneChildStays(sc, sc', s, b, i, j);
    }
  }

  lemma OneChildStays(sc: seq<Scope>, sc': seq<Scope>, s: nat, b: Block, i: nat, j: nat)
    requires j < i <= |b.procs| && s < |sc| && s < |sc'| && s + 1 + Span(b, i) <= |sc| <= |sc'|
    requires |sc[s].children| == i <= |sc'[s].children| && sc'[s].children[..i] == sc[s].children
    requires forall k :: s < k < s + 1 + Span(b, i) ==> sc'[k].children == sc[k].children
    requires ChildShaped(sc, s, b, j)
    ensures ChildShaped(sc', s, b, j)
  {
    var cj := s + 1 + Span(b, j);
    var body := b.procs[j].body;
    SpanMonotonic(b, j + 1, i);
    assert cj + Size(body) <= s + 1 + Span(b, i);
    assert sc'[s].children[j] == sc'[s].children[..i][j];
    assert Shaped(sc, cj, body);
    ShapedFrame(sc, sc', cj, body);
  }

  // ---------------------------------------------------------------------
  // What the pass declares

  function ConstNames(cs: seq<ConstDecl>): set<string>
    decreases |cs|
  {
    if cs == [] then {} else ConstNames(cs[..|cs| - 1]) + {cs[|cs| - 1].name}
  }

  function VarNamesOf(vs: seq<VarDecl>): set<string>
    decreases |vs|
  {
    if vs == [] then {} else VarNamesOf(vs[..|vs| - 1]) + {vs[|vs| - 1].name}
  }

  /** The constants' names join the scope and what was declared stays. */
  lemma {:induction false} DeclareConstsKeys(t: Table, cs: seq<ConstDecl>)
    requires Valid(t)
    ensures CurrentScope(DeclareConsts(t, cs)).symbols.Keys == CurrentScope(t).symbols.Keys + ConstNames(cs)
    ensures forall n :: n in CurrentScope(t).symbols ==>
              CurrentScope(DeclareConsts(t, cs)).symbols[n] == CurrentScope(t).symbols[n]
    decreases |cs|
  {
    if cs != [] { DeclareConstsKeys(t, cs[..|cs| - 1]); }
  }

  lemma {:induction false} ConstNamesAt(cs: seq<ConstDecl>, i: nat)
    requires i < |cs|
    ensures cs[i].name in ConstNames(cs)
    decreases |cs|
  {
    if i < |cs| - 1 { ConstNamesAt(cs[..|cs| - 1], i); }
  }

  /** The `i`-th constant is declared CONST with the `i`-th value at the
      scope's level, unless its name was already taken in the scope or
      earlier in the list, in which case the first declaration stays. */
  lemma {:induction false} DeclareConstsEntries(t: Table, cs: seq<ConstDecl>, i: nat)
    requires Valid(t) && i < |cs|
    requires cs[i].name !in CurrentScope(t).symbols
    requires forall j :: 0 <= j < i ==> cs[j].name != cs[i].name
    ensures cs[i].name in CurrentScope(DeclareConsts(t, cs)).symbols
    ensures CurrentScope(DeclareConsts(t, cs)).symbols[cs[i].name]
            == SymbolEntry(cs[i].name, Const, Some(cs[i].value), CurrentScope(t).nestingLevel, 0)
    decreases |cs|
  {
    var init := cs[..|cs| - 1];
    var mid := DeclareConsts(t, init);
    if i < |cs| - 1 {
      assert init[i] == cs[i];
      DeclareConstsEntries(t, init, i);
    } else {
      DeclareConstsKeys(t, init);
      forall j | 0 <= j < |init| ensures init[j].name != cs[i].name { assert init[j] == cs[j]; }
      NotInConstNames(init, cs[i].name);
    }
  }

  lemma {:induction false} NotInConstNames(cs: seq<ConstDecl>, n: string)
    requires forall j :: 0 <= j < |cs| ==> cs[j].name != n
    ensures n !in ConstNames(cs)
    decreases |cs|
  {
    if cs != [] { NotInConstNames(cs[..|cs| - 1], n); }
  }

  /** The variables' names join the scope and what was declared stays. */
  lemma {:induction false} DeclareVarsKeys(t: Table, vs: seq<VarDecl>)
    requires Valid(t)
    ensures CurrentScope(DeclareVars(t, vs)).symbols.Keys == CurrentScope(t).symbols.Keys + VarNamesOf(vs)
    ensures forall n :: n in CurrentScope(t).symbols ==>
              CurrentScope(DeclareVars(t, vs)).symbols[n] == CurrentScope(t).symbols[n]
    decreases |vs|
  {
    if vs != [] { DeclareVarsKeys(t, vs[..|vs| - 1]); }
  }

  lemma {:induction false} NotInVarNames(vs: seq<VarDecl>, n: string)
    requires forall j :: 0 <= j < |vs| ==> vs[j].name != n
    ensures n !in VarNamesOf(vs)
    decreases |vs|
  {
    if vs != [] { NotInVarNames(vs[..|vs| - 1], n); }
  }

  /** The names of `vs` the scope did not hold before the pass: the ones
      that take a slot. */
  function FreshVarNames(keys: set<string>, vs: seq<VarDecl>): set<string> {
    VarNamesOf(vs) - keys
  }

  /** Variables get consecutive slots in declaration order.  The first
      occurrence of a name the scope does not hold yet takes the slot below
      those of the fresh names before it; every other occurrence (a name
      already declared in the scope, or repeated in the list) is skipped and
      takes no slot.  The cursor ends one slot per fresh name below where the
      pass started. */
  lemma DeclareVarsOffsets(t: Table, vs: seq<VarDecl>)
    requires Valid(t)
    ensures var keys, r := CurrentScope(t).symbols.Keys, CurrentScope(DeclareVars(t, vs));
            && r.currentOffset == CurrentScope(t).currentOffset - Slot * |FreshVarNames(keys, vs)|
            && (forall i :: 0 <= i < |vs| && vs[i].name !in keys && vs[i].name !in VarNamesOf(vs[..i]) ==>
                  vs[i].name in r.symbols &&
                  r.symbols[vs[i].name] == SymbolEntry(vs[i].name, Var, None, CurrentScope(t).nestingLevel,
                                                       CurrentScope(t).currentOffset - Slot * |FreshVarNames(keys, vs[..i])|))
  {
    DeclareVarsCursor(t, vs);
    var keys := CurrentScope(t).symbols.Keys;
    forall i | 0 <= i < |vs| && vs[i].name !in keys && vs[i].name !in VarNamesOf(vs[..i])
      ensures var r := CurrentScope(DeclareVars(t, vs));
              vs[i].name in r.symbols &&
              r.symbols[vs[i].name] == SymbolEntry(vs[i].name, Var, None, CurrentScope(t).nestingLevel,
                                                   CurrentScope(t).currentOffset - Slot * |FreshVarNames(keys, vs[..i])|)
    {
      DeclareVarsEntry(t, vs, i);
    }
  }

  /** The cursor drops one slot per fresh name. */
  lemma {:induction false} DeclareVarsCursor(t: Table, vs: seq<VarDecl>)
    requires Valid(t)
    ensures CurrentScope(DeclareVars(t, vs)).currentOffset
            == CurrentScope(t).currentOffset - Slot * |FreshVarNames(CurrentScope(t).symbols.Keys, vs)|
    decreases |vs|
  {
    if vs != [] {
      var keys := CurrentScope(t).symbols.Keys;
      var init := vs[..|vs| - 1];
      var x := vs[|vs| - 1].name;
      DeclareVarsCursor(t, init);
      DeclareVarsKeys(t, init);
      FreshVarNamesStep(keys, vs);
    }
  }

  lemma FreshVarNamesStep(keys: set<string>, vs: seq<VarDecl>)
    requires vs != []
    ensures var init, x := vs[..|vs| - 1], vs[|vs| - 1].name;
            |FreshVarNames(keys, vs)| == |FreshVarNames(keys, init)| + if x in keys || x in VarNamesOf(init) then 0 else 1
  {
    var init, x := vs[..|vs| - 1], vs[|vs| - 1].name;
    assert VarNamesOf(vs) == VarNamesOf(init) + {x};
    if x in keys || x in VarNamesOf(init) {
      assert FreshVarNames(keys, vs) == FreshVarNames(keys, init);
    } else {
      assert FreshVarNames(keys, vs) == FreshVarNames(keys, init) + {x};
      assert x !in FreshVarNames(keys, init);
    }
  }

  /** The `i`-th variable, when its name is fresh, is entered at the cursor
      as it stood after the fresh names before it. */
  lemma {:induction false} DeclareVarsEntry(t: Table, vs: seq<VarDecl>, i: nat)
    requires Valid(t) && i < |vs|
    requires vs[i].name !in CurrentScope(t).symbols && vs[i].name !in VarNamesOf(vs[..i])
    ensures var r := CurrentScope(DeclareVars(t, vs));
            && vs[i].name in r.symbols
            && r.symbols[vs[i].name] == SymbolEntry(vs[i].name, Var, None, CurrentScope(t).nestingLevel,
                 CurrentScope(t).currentOffset - Slot * |FreshVarNames(CurrentScope(t).symbols.Keys, vs[..i])|)
    decreases |vs|
  {
    var init := vs[..|vs| - 1];
    var ti := DeclareVars(t, init);
    if i == |vs| - 1 {
      assert vs[..i] == init;
      DeclareVarsKeys(t, init);
      DeclareVarsCursor(t, init);
    } else {
      assert init[i] == vs[i] && init[..i] == vs[..i];
      DeclareVarsEntry(t, init, i);
    }
  }

  /** The pass opens exactly one scope per procedure declaration. */
  lemma {:induction false} DeclareBlockCount(t: Table, b: Block)
    requires Valid(t)
    ensures |DeclareBlock(t, b).scopes| == |t.scopes| + Size(b) - 1
    decreases b, 1
  {
    DeclareProcsCount(DeclareVars(DeclareConsts(t, b.consts), b.vars), b, 0);
  }

  lemma {:induction false} DeclareProcsCount(t: Table, b: Block, i: nat)
    requires Valid(t) && i <= |b.procs|
    ensures |DeclareProcs(t, b, i).scopes| == |t.scopes| + Span(b, |b.procs|) - Span(b, i)
    decreases b, 0, |b.procs| - i
  {
    if i < |b.procs| {
      var p := b.procs[i];
      var t1 := Declare(t, p.name, Procedure, None).0;
      var t2 := EnterNew(t1);
      DeclareBlockCount(t2, p.body);
      var t4 := Exit(DeclareBlock(t2, p.body)).0;
      DeclareProcsCount(t4, b, i + 1);
      SpanMonotonic(b, i + 1, |b.procs|);
    }
  }

  /** In the pass over a block's procedures from the `s`-th on, every later
      procedure `i`'s name is declared in the enclosing scope, at the
      enclosing level, unless the scope or an earlier procedure of the run
      already took the name; and whether or not its name was a duplicate,
      procedure `i` opens the `(i - s)`-th new child of the enclosing scope,
      the scope that follows the subtrees of the procedures before it. */
  lemma ProcedureDeclaredInEnclosingScope(t: Table, b: Block, s: nat, i: nat)
    requires Valid(t) && s <= i < |b.procs|
    ensures var r := DeclareProcs(t, b, s);
            var p := b.procs[i];
            && p.name in CurrentScope(r).symbols
            && (p.name !in CurrentScope(t).symbols && (forall j :: s <= j < i ==> b.procs[j].name != p.name) ==>
                  CurrentScope(r).symbols[p.name] == SymbolEntry(p.name, Procedure, None, CurrentScope(t).nestingLevel, 0))
            && |CurrentScope(t).children| + (i - s) < |CurrentScope(r).children|
            && CurrentScope(r).children[|CurrentScope(t).children| + (i - s)] == |t.scopes| + Span(b, i) - Span(b, s)
  {
    ProcNameDeclared(t, b, s, i);
    ProcOpensChild(t, b, s, i);
  }

  /** Procedure `i`'s name is in the enclosing scope after the run from `s`. */
  lemma {:induction false} ProcNameDeclared(t: Table, b: Block, s: nat, i: nat)
    requires Valid(t) && s <= i < |b.procs|
    ensures var r := DeclareProcs(t, b, s);
            var p := b.procs[i];
            && p.name in CurrentScope(r).symbols
            && (p.name !in CurrentScope(t).symbols && (forall j :: s <= j < i ==> b.procs[j].name != p.name) ==>
                  CurrentScope(r).symbols[p.name] == SymbolEntry(p.name, Procedure, None, CurrentScope(t).nestingLevel, 0))
    decreases i - s
  {
    var p := b.procs[s];
    var t1 := Declare(t, p.name, Procedure, None).0;
    var t2 := EnterNew(t1);
    var t3 := DeclareBlock(t2, p.body);
    var t4 := Exit(t3).0;
    assert t3.scopes[t.current] == t2.scopes[t.current];
    if s == i {
      DeclareProcsKeepsSymbols(t4, b, s + 1, p.name);
    } else {
      var q := b.procs[i];
      ProcNameDeclared(t4, b, s + 1, i);
      if q.name !in CurrentScope(t).symbols && (forall j :: s <= j < i ==> b.procs[j].name != q.name) {
        assert b.procs[s].name != q.name;
        assert q.name !in CurrentScope(t4).symbols;
      }
    }
  }

  /** Procedure `i` of the run from `s` opens the `(i - s)`-th new child. */
  lemma {:induction false} ProcOpensChild(t: Table, b: Block, s: nat, i: nat)
    requires Valid(t) && s <= i < |b.procs|
    ensures var r := DeclareProcs(t, b, s);
            && |CurrentScope(t).children| + (i - s) < |CurrentScope(r).children|
            && CurrentScope(r).children[|CurrentScope(t).children| + (i - s)] == |t.scopes| + Span(b, i) - Span(b, s)
  {
    DeclareProcsChildren(t, b, s);
    ChildScopesAt(b, s, |t.scopes|, i);
  }

  /** Scope indices of the children opened by procedures `s..` of `b`, when
      the first of them is allocated at index `base`. */
  function ChildScopes(b: Block, s: nat, base: nat): seq<nat>
    requires s <= |b.procs|
    decreases |b.procs| - s
  {
    if s == |b.procs| then [] else [base] + ChildScopes(b, s + 1, base + Size(b.procs[s].body))
  }

  lemma {:induction false} ChildScopesAt(b: Block, s: nat, base: nat, i: nat)
    requires s <= i < |b.procs|
    ensures i - s < |ChildScopes(b, s, base)|
    ensures ChildScopes(b, s, base)[i - s] == base + Span(b, i) - Span(b, s)
    decreases i - s
  {
    if s < i {
      ChildScopesAt(b, s + 1, base + Size(b.procs[s].body), i);
    }
  }

  /** The pass over procedures `s..` appends exactly their body scopes to the
      current scope's children, in order. */
  lemma {:induction false} DeclareProcsChildren(t: Table, b: Block, s: nat)
    requires Valid(t) && s <= |b.procs|
    ensures CurrentScope(DeclareProcs(t, b, s)).children == CurrentScope(t).children + ChildScopes(b, s, |t.scopes|)
    decreases |b.procs| - s
  {
    if s < |b.procs| {
      var p := b.procs[s];
      var t1 := Declare(t, p.name, Procedure, None).0;
      var t2 := EnterNew(t1);
      var t3 := DeclareBlock(t2, p.body);
      var t4 := Exit(t3).0;
      DeclareBlockCount(t2, p.body);
      assert t3.scopes[t.current] == t2.scopes[t.current];
      DeclareProcsChildren(t4, b, s + 1);
      ChildrenStep(b, s, CurrentScope(t).children, |t.scopes|, CurrentScope(t4).children, |t4.scopes|,
                   CurrentScope(DeclareProcs(t4, b, s + 1)).children);
    }
  }

  /** The step of `DeclareProcsChildren`, on the children lists alone. */
  lemma ChildrenStep(b: Block, s: nat, c: seq<nat>, n: nat, c4: seq<nat>, n4: nat, r: seq<nat>)
    requires s < |b.procs| && c4 == c + [n] && n4 == n + Size(b.procs[s].body)
    requires r == c4 + ChildScopes(b, s + 1, n4)
    ensures r == c + ChildScopes(b, s, n)
  {
    ChildScopesUnfold(b, s, n, n4);
    assert c4 + ChildScopes(b, s + 1, n4) == c + ([n] + ChildScopes(b, s + 1, n4));
  }

  lemma ChildScopesUnfold(b: Block, s: nat, base: nat, next: nat)
    requires s < |b.procs| && next == base + Size(b.procs[s].body)
    ensures ChildScopes(b, s, base) == [base] + ChildScopes(b, s + 1, next)
  {
  }

  lemma {:induction false} DeclareProcsKeepsSymbols(t: Table, b: Block, i: nat, n: string)
    requires Valid(t) && i <= |b.procs| && n in CurrentScope(t).symbols
    ensures n in CurrentScope(DeclareProcs(t, b, i)).symbols
    ensures CurrentScope(DeclareProcs(t, b, i)).symbols[n] == CurrentScope(t).symbols[n]
    decreases |b.procs| - i
  {
    if i < |b.procs| {
      var p := b.procs[i];
      var t1 := Declare(t, p.name, Procedure, None).0;
      var t2 := EnterNew(t1);
      var t3 := DeclareBlock(t2, p.body);
      var t4 := Exit(t3).0;
      assert t3.scopes[t.current] == t2.scopes[t.current];
      DeclareProcsKeepsSymbols(t4, b, i + 1, n);
    }
  }

  // ---------------------------------------------------------------------
  // The listener

  /** The pass itself: a walker over the syntax tree that updates the shared
      symbol table in place. */
  class SymbolTableBuilder {
    const symbolTable: SymbolTable

    constructor (symbolTable: SymbolTable)
      ensures this.symbolTable == symbolTable
    {
      this.symbolTable := symbolTable;
    }

    /** Walks a whole program with the root scope current. */
    method Walk(p: Program)
      requires symbolTable.Valid()
      modifies symbolTable
      ensures symbolTable.State() == DeclareBlock(old(symbolTable.State()), p.block) && symbolTable.Valid()
    {
      WalkBlock(p.block);
    }

    method WalkBlock(b: Block)
      requires symbolTable.Valid()
      modifies symbolTable
      ensures symbolTable.State() == DeclareBlock(old(symbolTable.State()), b) && symbolTable.Valid()
      decreases b
    {
      EnterConstDeclaration(b.consts);
      EnterVarDeclaration(b.vars);
      ghost var start := symbolTable.State();
      for i := 0 to |b.procs|
        invariant symbolTable.Valid()
        invariant DeclareProcs(symbolTable.State(), b, i) == DeclareProcs(start, b, 0)
      {
        EnterProcedureDeclaration(b.procs[i]);
        WalkBlock(b.procs[i].body);
        ExitProcedureDeclaration();
      }
    }

    /** `enterConstDeclaration`: each name with its value, in order. */
    method EnterConstDeclaration(cs: seq<ConstDecl>)
      requires symbolTable.Valid()
      modifies symbolTable
      ensures symbolTable.State() == DeclareConsts(old(symbolTable.State()), cs) && symbolTable.Valid()
    {
      for i := 0 to |cs|
        invariant symbolTable.Valid()
        invariant symbolTable.State() == DeclareConsts(old(symbolTable.State()), cs[..i])
      {
        assert cs[..i + 1][..i] == cs[..i];
        var _ := symbolTable.AddSymbol(cs[i].name, Const, Some(cs[i].value));
      }
      assert cs[..|cs|] == cs;
    }

    /** `enterVarDeclaration`: each name, in order. */
    method EnterVarDeclaration(vs: seq<VarDecl>)
      requires symbolTable.Valid()
      modifies symbolTable
      ensures symbolTable.State() == DeclareVars(old(symbolTable.State()), vs) && symbolTable.Valid()
    {
      for i := 0 to |vs|
        invariant symbolTable.Valid()
        invariant symbolTable.State() == DeclareVars(old(symbolTable.State()), vs[..i])
      {
        assert vs[..i + 1][..i] == vs[..i];
        var _ := symbolTable.AddSymbol(vs[i].name, Var, None);
      }
      assert vs[..|vs|] == vs;
    }

    /** `enterProcedureDeclaration`: the name into the enclosing scope, then a
        new scope for the body. */
    method EnterProcedureDeclaration(p: ProcDecl)
      requires symbolTable.Valid()
      modifies symbolTable
      ensures symbolTable.State() == EnterNew(Declare(old(symbolTable.State()), p.name, Procedure, None).0)
      ensures symbolTable.Valid()
    {
      var _ := symbolTable.AddSymbol(p.name, Procedure, None);
      symbolTable.EnterNewScope();
    }

    /** `exitProcedureDeclaration`. */
    method ExitProcedureDeclaration()
      requires symbolTable.Valid()
      modifies symbolTable
      ensures symbolTable.State() == Exit(old(symbolTable.State())).0 && symbolTable.Valid()
    {
      var _ := symbolTable.ExitScope();
    }
  }
}

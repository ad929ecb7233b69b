/** The scope tree of `symbolTable/SymbolTable.java` as a value: an arena of
    scopes addressed by index (index 0 is the global scope) and the index of
    the current scope.  The functions here are the specification of the
    `SymbolTable` class and of the passes that drive it. */
module ScopeTree {
  import opened Wrappers
  import opened Symbols

  /** Offset of the first local variable: `-8(%rbp)` holds the static link. */
  const FirstOffset: int := -16
  /** Every variable occupies one 8-byte slot. */
  const Slot: int := 8

  datatype Scope = Scope(parent: Option<nat>, children: seq<nat>,
                         symbols: map<string, SymbolEntry>, nextChildIndex: nat,
                         nestingLevel: nat, currentOffset: int)

  datatype Table = Table(scopes: seq<Scope>, current: nat)

  function NewScope(parent: Option<nat>, level: nat): Scope {
    Scope(parent, [], map[], 0, level, FirstOffset)
  }

  ghost function VarNames(m: map<string, SymbolEntry>): set<string> {
    set n | n in m && m[n].kind == Var
  }

  /** The symbols of one scope: keyed by their names, at the scope's level,
      VARs at distinct offsets between the cursor and -16, one slot each. */
  ghost predicate SymbolsOk(s: Scope) {
    && s.currentOffset == FirstOffset - Slot * |VarNames(s.symbols)|
    && (forall n :: n in s.symbols ==>
          && s.symbols[n].name == n
          && s.symbols[n].nestingLevel == s.nestingLevel
          && (s.symbols[n].kind == Var ==> s.currentOffset < s.symbols[n].offset <= FirstOffset)
          && (s.symbols[n].kind != Var ==> s.symbols[n].offset == 0))
    && (forall n, m ::
          (n in s.symbols && m in s.symbols && n != m &&
           s.symbols[n].kind == Var && s.symbols[m].kind == Var) ==>
          s.symbols[n].offset != s.symbols[m].offset)
  }

  /** Parent links point to earlier scopes, so every parent chain ends at the root. */
  ghost predicate ParentsOk(sc: seq<Scope>) {
    forall i :: 0 <= i < |sc| && sc[i].parent.Some? ==> sc[i].parent.value < i
  }

  ghost predicate ScopeOk(sc: seq<Scope>, i: nat)
    requires i < |sc|
  {
    var s := sc[i];
    && (i == 0 <==> s.parent.None?)
    && (i == 0 ==> s.nestingLevel == 0)
    && (s.parent.Some? ==>
          && s.parent.value < i
          && s.nestingLevel == sc[s.parent.value].nestingLevel + 1
          && i in sc[s.parent.value].children)
    && (forall k :: 0 <= k < |s.children| ==>
          i < s.children[k] < |sc| && sc[s.children[k]].parent == Some(i))
    && s.nextChildIndex <= |s.children|
    && SymbolsOk(s)
  }

  ghost predicate ValidScopes(sc: seq<Scope>) {
    |sc| > 0 && forall i :: 0 <= i < |sc| ==> ScopeOk(sc, i)
  }

  ghost predicate Valid(t: Table) {
    ValidScopes(t.scopes) && t.current < |t.scopes|
  }

  lemma ValidParents(sc: seq<Scope>)
    requires ValidScopes(sc)
    ensures ParentsOk(sc)
  {
    forall i | 0 <= i < |sc| && sc[i].parent.Some? ensures sc[i].parent.value < i {
      assert ScopeOk(sc, i);
    }
  }

  /** Replacing one scope by another with the same links, level and a cursor
      in range keeps the tree valid, provided its symbols are in order. */
  lemma ReplaceScope(sc: seq<Scope>, j: nat, s': Scope)
    requires ValidScopes(sc) && j < |sc|
    requires s'.parent == sc[j].parent && s'.children == sc[j].children
    requires s'.nestingLevel == sc[j].nestingLevel
    requires s'.nextChildIndex <= |s'.children| && SymbolsOk(s')
    ensures ValidScopes(sc[j := s'])
  {
    var sc' := sc[j := s'];
    forall i | 0 <= i < |sc'| ensures ScopeOk(sc', i) {
      assert ScopeOk(sc, i);
    }
  }

  /** Adding a fresh name keeps the symbols of a scope in order. */
  lemma AddEntryOk(s: Scope, id: string, kind: SymbolKind, value: Option<int>)
    requires SymbolsOk(s) && id !in s.symbols
    ensures SymbolsOk(s.(symbols := s.symbols[id := NewEntry(s, id, kind, value)],
                         currentOffset := if kind == Var then s.currentOffset - Slot else s.currentOffset))
  {
    var m := s.symbols[id := NewEntry(s, id, kind, value)];
    assert VarNames(m) == if kind == Var then VarNames(s.symbols) + {id} else VarNames(s.symbols);
  }

  /** The tree without its traversal cursors. */
  function Shape(sc: seq<Scope>): (r: seq<Scope>)
    ensures |r| == |sc|
  {
    seq(|sc|, i requires 0 <= i < |sc| => sc[i].(nextChildIndex := 0))
  }

  // ---------------------------------------------------------------------
  // Operations

  /** A new table: one global scope at level 0, which is current. */
  function NewTable(): (t: Table)
    ensures Valid(t)
    ensures |t.scopes| == 1 && t.current == 0
    ensures t.scopes[0].parent == None && t.scopes[0].nestingLevel == 0
    ensures t.scopes[0].children == [] && t.scopes[0].symbols == map[]
  {
    var t := Table([NewScope(None, 0)], 0);
    assert VarNames(map[]) == {};
    t
  }

  function CurrentScope(t: Table): Scope
    requires t.current < |t.scopes|
  {
    t.scopes[t.current]
  }

  /** `enterNewScope`: a fresh scope one level deeper, appended as the last
      child of the current scope, becomes current. */
  function EnterNew(t: Table): (r: Table)
    requires Valid(t)
    ensures Valid(r)
    ensures |r.scopes| == |t.scopes| + 1 && r.current == |t.scopes|
    ensures r.scopes[r.current] == NewScope(Some(t.current), CurrentScope(t).nestingLevel + 1)
    ensures r.scopes[t.current] == CurrentScope(t).(children := CurrentScope(t).children + [r.current])
    ensures forall i :: 0 <= i < |t.scopes| && i != t.current ==> r.scopes[i] == t.scopes[i]
  {
    var c := |t.scopes|;
    var cur := CurrentScope(t);
    var sc := t.scopes[t.current := cur.(children := cur.children + [c])]
              + [NewScope(Some(t.current), cur.nestingLevel + 1)];
    assert VarNames(map[]) == {};
    forall i | 0 <= i < |sc| ensures ScopeOk(sc, i) {
      if i < c {
        assert ScopeOk(t.scopes, i);
      }
    }
    Table(sc, c)
  }

  /** `enterNextChildScope`: the child under the current scope's cursor
      becomes current and the cursor advances; when no child is left the
      table is unchanged and the result says so. */
  function EnterNextChild(t: Table): (r: (Table, bool))
    requires Valid(t)
    ensures Valid(r.0)
    ensures Shape(r.0.scopes) == Shape(t.scopes)
    ensures r.1 <==> CurrentScope(t).nextChildIndex < |CurrentScope(t).children|
    ensures r.1 ==> r.0.current == CurrentScope(t).children[CurrentScope(t).nextChildIndex]
    ensures r.1 ==> r.0.scopes == t.scopes[t.current := CurrentScope(t).(nextChildIndex := CurrentScope(t).nextChildIndex + 1)]
    ensures r.1 ==> r.0.scopes[r.0.current].parent == Some(t.current)
    ensures !r.1 ==> r.0 == t
  {
    var s := CurrentScope(t);
    if s.nextChildIndex < |s.children| then
      var sc := t.scopes[t.current := s.(nextChildIndex := s.nextChildIndex + 1)];
      assert ScopeOk(t.scopes, t.current);
      ReplaceScope(t.scopes, t.current, s.(nextChildIndex := s.nextChildIndex + 1));
      assert Shape(sc) == Shape(t.scopes) by {
        forall i | 0 <= i < |sc| ensures Shape(sc)[i] == Shape(t.scopes)[i] { }
      }
      (Table(sc, s.children[s.nextChildIndex]), true)
    else
      (t, false)
  }

  /** `exitScope`: the parent becomes current; at the global scope nothing
      changes and the result says so. */
  function Exit(t: Table): (r: (Table, bool))
    requires Valid(t)
    ensures Valid(r.0) && r.0.scopes == t.scopes
    ensures r.1 <==> t.current != 0
    ensures r.1 ==> Some(r.0.current) == CurrentScope(t).parent
    ensures !r.1 ==> r.0 == t
  {
    assert ScopeOk(t.scopes, t.current);
    match CurrentScope(t).parent
    case Some(p) => (Table(t.scopes, p), true)
    case None => (t, false)
  }

  /** `reset`: the global scope becomes current and every cursor is zero;
      children and symbols are untouched. */
  function ResetCursors(t: Table): (r: Table)
    requires Valid(t)
    ensures Valid(r) && r.current == 0 && r.scopes == Shape(t.scopes)
    ensures forall i :: 0 <= i < |r.scopes| ==>
              r.scopes[i].nextChildIndex == 0 && r.scopes[i].(nextChildIndex := t.scopes[i].nextChildIndex) == t.scopes[i]
  {
    var sc := Shape(t.scopes);
    forall i | 0 <= i < |sc| ensures ScopeOk(sc, i) {
      assert ScopeOk(t.scopes, i);
    }
    Table(sc, 0)
  }

  /** The entry `addSymbol` stores for a new name in scope `s`. */
  function NewEntry(s: Scope, id: string, kind: SymbolKind, value: Option<int>): SymbolEntry {
    SymbolEntry(id, kind, value, s.nestingLevel, if kind == Var then s.currentOffset else 0)
  }

  /** `addSymbol`: fails, changing nothing, when the current scope already
      declares `id`; otherwise stores the symbol at the scope's level and,
      for a VAR only, gives it the cursor's offset and moves the cursor down
      one slot. */
  function Declare(t: Table, id: string, kind: SymbolKind, value: Option<int>): (r: (Table, bool))
    requires Valid(t)
    ensures Valid(r.0)
    ensures |r.0.scopes| == |t.scopes| && r.0.current == t.current
    ensures r.1 <==> id !in CurrentScope(t).symbols
    ensures !r.1 ==> r.0 == t
    ensures r.1 ==> CurrentScope(r.0).symbols == CurrentScope(t).symbols[id := NewEntry(CurrentScope(t), id, kind, value)]
    ensures r.1 ==> CurrentScope(r.0).currentOffset ==
                    if kind == Var then CurrentScope(t).currentOffset - Slot else CurrentScope(t).currentOffset
    ensures CurrentScope(r.0).(symbols := CurrentScope(t).symbols, currentOffset := CurrentScope(t).currentOffset) == CurrentScope(t)
    ensures forall i :: 0 <= i < |t.scopes| && i != t.current ==> r.0.scopes[i] == t.scopes[i]
  {
    var s := CurrentScope(t);
    if id in s.symbols then (t, false)
    else
      var s' := s.(symbols := s.symbols[id := NewEntry(s, id, kind, value)],
                   currentOffset := if kind == Var then s.currentOffset - Slot else s.currentOffset);
      assert ScopeOk(t.scopes, t.current);
      AddEntryOk(s, id, kind, value);
      ReplaceScope(t.scopes, t.current, s');
      var sc := t.scopes[t.current := s'];
      (Table(sc, t.current), true)
  }

  /** `getLocalsSize`: bytes used by the current scope's variables. */
  function LocalsSize(t: Table): (r: int)
    requires Valid(t)
    ensures r == Slot * |VarNames(CurrentScope(t).symbols)| && r >= 0
  {
    assert ScopeOk(t.scopes, t.current);
    -CurrentScope(t).currentOffset - 16
  }

  /** `getCurrentNestingLevel`. */
  function Level(t: Table): nat
    requires t.current < |t.scopes|
  {
    CurrentScope(t).nestingLevel
  }

  // ---------------------------------------------------------------------
  // Lookup

  /** `lookup` from scope `s`: the symbol of the innermost scope on the parent
      chain that declares `id`. */
  function Resolve(sc: seq<Scope>, s: nat, id: string): Option<SymbolEntry>
    requires ParentsOk(sc) && s < |sc|
    decreases s
  {
    if id in sc[s].symbols then Some(sc[s].symbols[id])
    else match sc[s].parent
      case None => None
      case Some(p) => Resolve(sc, p, id)
  }

  function Lookup(t: Table, id: string): Option<SymbolEntry>
    requires Valid(t)
  {
    ValidParents(t.scopes);
    Resolve(t.scopes, t.current, id)
  }

  /** The parent chain from `s` to the global scope, innermost first. */
  function Chain(sc: seq<Scope>, s: nat): (r: seq<nat>)
    requires ParentsOk(sc) && s < |sc|
    ensures |r| > 0 && r[0] == s
    ensures forall k :: 0 <= k < |r| ==> r[k] < |sc|
    decreases s
  {
    match sc[s].parent
    case None => [s]
    case Some(p) => [s] + Chain(sc, p)
  }

  /** Independent reading of `lookup`: it finds the first scope of the parent
      chain that declares `id`, and nothing when no scope of the chain does
      (the two clauses together are an if-and-only-if). */
  lemma {:induction false} ResolveIsFirstOnChain(sc: seq<Scope>, s: nat, id: string)
    requires ParentsOk(sc) && s < |sc|
    ensures Resolve(sc, s, id).None? ==>
              forall k :: 0 <= k < |Chain(sc, s)| ==> id !in sc[Chain(sc, s)[k]].symbols
    ensures Resolve(sc, s, id).Some? ==>
              exists k :: 0 <= k < |Chain(sc, s)| && id in sc[Chain(sc, s)[k]].symbols
                && Resolve(sc, s, id).value == sc[Chain(sc, s)[k]].symbols[id]
                && forall j :: 0 <= j < k ==> id !in sc[Chain(sc, s)[j]].symbols
    decreases s
  {
    var ch := Chain(sc, s);
    if id in sc[s].symbols {
      assert id in sc[ch[0]].symbols;
    } else {
      match sc[s].parent
      case None =>
        assert ch == [s];
      case Some(p) =>
        ResolveIsFirstOnChain(sc, p, id);
        var tail := Chain(sc, p);
        assert ch == [s] + tail;
        forall k | 1 <= k < |ch| ensures ch[k] == tail[k - 1] { }
        if Resolve(sc, p, id).Some? {
          var k :| 0 <= k < |tail| && id in sc[tail[k]].symbols
                && Resolve(sc, p, id).value == sc[tail[k]].symbols[id]
                && forall j :: 0 <= j < k ==> id !in sc[tail[j]].symbols;
          assert ch[k + 1] == tail[k];
          forall j | 0 <= j < k + 1 ensures id !in sc[ch[j]].symbols {
            if j > 0 { assert ch[j] == tail[j - 1]; }
          }
        } else {
          forall k | 0 <= k < |ch| ensures id !in sc[ch[k]].symbols {
            if k > 0 {
              assert ch[k] == tail[k - 1];
              assert id !in sc[tail[k - 1]].symbols;
            }
          }
        }
    }
  }

  /** The scope reached by `n` parent links from `s` (the global scope if
      the chain is shorter). */
  function Ancestor(sc: seq<Scope>, s: nat, n: nat): (r: nat)
    requires ParentsOk(sc) && s < |sc|
    ensures r < |sc|
    decreases n
  {
    if n == 0 then s
    else match sc[s].parent
      case None => s
      case Some(p) => Ancestor(sc, p, n - 1)
  }

  /** Static-link addressing in scope-tree terms: a symbol found from scope
      `s` lives at a level no deeper than `s`, and walking level(s) minus the
      symbol's level parent links from `s` reaches the very scope that
      declares it. */
  lemma {:induction false} ResolveByLevel(sc: seq<Scope>, s: nat, id: string)
    requires ValidScopes(sc) && s < |sc|
    ensures ParentsOk(sc)
    ensures Resolve(sc, s, id).Some? ==>
              0 <= Resolve(sc, s, id).value.nestingLevel <= sc[s].nestingLevel
    ensures Resolve(sc, s, id).Some? && 0 <= Resolve(sc, s, id).value.nestingLevel <= sc[s].nestingLevel ==>
              var e := Resolve(sc, s, id).value;
              var a := Ancestor(sc, s, sc[s].nestingLevel - e.nestingLevel);
              && id in sc[a].symbols && sc[a].symbols[id] == e
              && sc[a].nestingLevel == e.nestingLevel
    decreases s
  {
    ValidParents(sc);
    assert ScopeOk(sc, s);
    if id in sc[s].symbols {
    } else {
      match sc[s].parent
      case None =>
      case Some(p) =>
        ResolveByLevel(sc, p, id);
        if Resolve(sc, s, id).Some? {
          var e := Resolve(sc, s, id).value;
          assert ScopeOk(sc, p);
          assert Ancestor(sc, s, sc[s].nestingLevel - e.nestingLevel)
              == Ancestor(sc, p, sc[p].nestingLevel - e.nestingLevel);
        }
    }
  }

  /** Lookup reads only parent links and symbols, never the cursors. */
  lemma {:induction false} ResolveIgnoresCursors(sc: seq<Scope>, sc': seq<Scope>, s: nat, id: string)
    requires ParentsOk(sc) && s < |sc| && Shape(sc) == Shape(sc')
    ensures ParentsOk(sc')
    ensures Resolve(sc, s, id) == Resolve(sc', s, id)
    decreases s
  {
    forall i | 0 <= i < |sc'| ensures sc'[i].parent == sc[i].parent && sc'[i].symbols == sc[i].symbols {
      assert Shape(sc)[i] == Shape(sc')[i];
    }
    match sc[s].parent
    case None =>
    case Some(p) =>
      if id !in sc[s].symbols { ResolveIgnoresCursors(sc, sc', p, id); }
  }

  /** `j` lies in the subtree rooted at `a`: `a` is on the parent chain of `j`. */
  ghost predicate InSubtree(sc: seq<Scope>, a: nat, j: nat)
    requires ParentsOk(sc) && j < |sc|
    decreases j
  {
    j == a || (sc[j].parent.Some? && InSubtree(sc, a, sc[j].parent.value))
  }

  lemma {:induction false} AllInRootSubtree(sc: seq<Scope>, j: nat)
    requires ValidScopes(sc) && j < |sc|
    ensures ParentsOk(sc) && InSubtree(sc, 0, j)
    decreases j
  {
    ValidParents(sc);
    assert ScopeOk(sc, j);
    if j != 0 { AllInRootSubtree(sc, sc[j].parent.value); }
  }

  /** Below a scope other than itself, the subtree of `a` is the union of the
      subtrees of its children. */
  lemma {:induction false} SubtreeThroughChild(sc: seq<Scope>, a: nat, j: nat)
    requires ValidScopes(sc) && a < |sc| && j < |sc| && j != a
    ensures ParentsOk(sc)
    ensures InSubtree(sc, a, j) <==>
              exists k :: 0 <= k < |sc[a].children| && InSubtree(sc, sc[a].children[k], j)
    decreases j
  {
    ValidParents(sc);
    assert ScopeOk(sc, j);
    assert ScopeOk(sc, a);
    if InSubtree(sc, a, j) {
      var p := sc[j].parent.value;
      assert ScopeOk(sc, p);
      if p == a {
        var k :| 0 <= k < |sc[a].children| && sc[a].children[k] == j;
        assert InSubtree(sc, sc[a].children[k], j);
      } else {
        SubtreeThroughChild(sc, a, p);
        var k :| 0 <= k < |sc[a].children| && InSubtree(sc, sc[a].children[k], p);
        assert InSubtree(sc, sc[a].children[k], j);
      }
    }
    if exists k :: 0 <= k < |sc[a].children| && InSubtree(sc, sc[a].children[k], j) {
      var k :| 0 <= k < |sc[a].children| && InSubtree(sc, sc[a].children[k], j);
      ChildSubtreeInParent(sc, a, k, j);
    }
  }

  /** `j` lies in the subtree of one of `roots`. */
  ghost predicate UnderAny(sc: seq<Scope>, roots: seq<nat>, j: nat)
    requires ParentsOk(sc) && j < |sc|
  {
    exists i :: 0 <= i < |roots| && InSubtree(sc, roots[i], j)
  }

  lemma UnderAnyStep(sc: seq<Scope>, roots: seq<nat>, k: nat, j: nat)
    requires ParentsOk(sc) && j < |sc| && k < |roots|
    ensures UnderAny(sc, roots[..k + 1], j) <==> UnderAny(sc, roots[..k], j) || InSubtree(sc, roots[k], j)
  {
    assert roots[..k + 1][k] == roots[k];
    if UnderAny(sc, roots[..k], j) {
      var i :| 0 <= i < k && InSubtree(sc, roots[..k][i], j);
      assert roots[..k + 1][i] == roots[..k][i];
    }
    if UnderAny(sc, roots[..k + 1], j) {
      var i :| 0 <= i < k + 1 && InSubtree(sc, roots[..k + 1][i], j);
      if i < k { assert roots[..k + 1][i] == roots[..k][i]; }
    }
  }

  lemma {:induction false} ChildSubtreeInParent(sc: seq<Scope>, a: nat, k: nat, j: nat)
    requires ValidScopes(sc) && a < |sc| && j < |sc| && k < |sc[a].children|
    requires ParentsOk(sc) && InSubtree(sc, sc[a].children[k], j)
    ensures InSubtree(sc, a, j)
    decreases j
  {
    assert ScopeOk(sc, a);
    if j != sc[a].children[k] {
      ChildSubtreeInParent(sc, a, k, sc[j].parent.value);
    }
  }

  // ---------------------------------------------------------------------
  // Re-traversal

  datatype Move = EnterChild | Leave

  /** A re-traversal: a sequence of `enterNextChildScope`/`exitScope` calls,
      with the scopes current after each call. */
  function Replay(t: Table, moves: seq<Move>): (r: (Table, seq<nat>))
    requires Valid(t)
    ensures Valid(r.0) && |r.1| == |moves|
    decreases |moves|
  {
    if moves == [] then (t, [])
    else
      var t' := if moves[0] == EnterChild then EnterNextChild(t).0 else Exit(t).0;
      var rest := Replay(t', moves[1..]);
      (rest.0, [t'.current] + rest.1)
  }

  lemma {:induction false} ReplayKeepsShape(t: Table, moves: seq<Move>)
    requires Valid(t)
    ensures Shape(Replay(t, moves).0.scopes) == Shape(t.scopes)
    decreases |moves|
  {
    if moves != [] {
      var t' := if moves[0] == EnterChild then EnterNextChild(t).0 else Exit(t).0;
      ReplayKeepsShape(t', moves[1..]);
    }
  }

  lemma ShapeIdempotent(sc: seq<Scope>)
    ensures Shape(Shape(sc)) == Shape(sc)
  {
  }

  /** After `reset`, a re-traversal enters the same scopes as the one before
      it that also started from `reset`: resetting again restores exactly
      the table the first traversal started from. */
  lemma TraversalsAfterResetAgree(t: Table, first: seq<Move>, moves: seq<Move>)
    requires Valid(t)
    ensures var t1 := Replay(ResetCursors(t), first).0;
            ResetCursors(t1) == ResetCursors(t)
    ensures var t1 := Replay(ResetCursors(t), first).0;
            Replay(ResetCursors(t1), moves).1 == Replay(ResetCursors(t), moves).1
  {
    var t0 := ResetCursors(t);
    var t1 := Replay(t0, first).0;
    ReplayKeepsShape(t0, first);
    ShapeIdempotent(t.scopes);
    assert Shape(t1.scopes) == Shape(t.scopes);
  }
}

/** The `SymbolTable` class: an arena of scopes and the current scope,
    updated in place.  Each method is proved against the function of the
    same name in ScopeTree. */
module SymbolTables {
  import opened Wrappers
  import opened Symbols
  import opened ScopeTree

  class SymbolTable {
    var scopes: seq<Scope>
    var current: nat

    ghost function State(): Table
      reads this
    {
      Table(scopes, current)
    }

    ghost predicate Valid()
      reads this
    {
      ScopeTree.Valid(State())
    }

    /** One global scope, current. */
    constructor ()
      ensures State() == NewTable() && Valid()
    {
      scopes := [NewScope(None, 0)];
      current := 0;
      new;
      assert State() == NewTable();
    }

    method EnterNewScope()
      requires Valid()
      modifies this
      ensures State() == EnterNew(old(State())) && Valid()
    {
      var cur := scopes[current];
      var child := Scope(Some(current), [], map[], 0, cur.nestingLevel + 1, FirstOffset);
      scopes := scopes[current := cur.(children := cur.children + [|scopes|])] + [child];
      current := |scopes| - 1;
    }

    /** Returns false (the source's "no more child scopes" diagnostic) when
        the cursor is exhausted. */
    method EnterNextChildScope() returns (entered: bool)
      requires Valid()
      modifies this
      ensures (State(), entered) == EnterNextChild(old(State())) && Valid()
    {
      var cur := scopes[current];
      if cur.nextChildIndex < |cur.children| {
        scopes := scopes[current := cur.(nextChildIndex := cur.nextChildIndex + 1)];
        current := cur.children[cur.nextChildIndex];
        entered := true;
      } else {
        entered := false;
      }
    }

    /** Returns false (the source's "cannot exit the global scope"
        diagnostic) at the global scope. */
    method ExitScope() returns (exited: bool)
      requires Valid()
      modifies this
      ensures (State(), exited) == Exit(old(State())) && Valid()
    {
      match scopes[current].parent
      case Some(p) =>
        current := p;
        exited := true;
      case None =>
        exited := false;
    }

    method Reset()
      requires Valid()
      modifies this
      ensures State() == ResetCursors(old(State())) && Valid()
    {
      ghost var tree := Shape(scopes);
      assert ResetCursors(State()).scopes == tree;
      current := 0;
      ResetIterators(0, tree);
      forall j | 0 <= j < |scopes| ensures scopes[j] == tree[j] {
        AllInRootSubtree(tree, j);
      }
    }

    /** Zeroes the cursor of `s` and, recursively, of every scope below it. */
    method ResetIterators(s: nat, ghost tree: seq<Scope>)
      requires ValidScopes(tree) && s < |tree| && Shape(scopes) == tree
      modifies this
      ensures ParentsOk(tree) && current == old(current)
      ensures |scopes| == |tree|
      ensures forall j :: 0 <= j < |scopes| ==>
                scopes[j] == if InSubtree(tree, s, j) then tree[j] else old(scopes[j])
      decreases |tree| - s
    {
      ValidParents(tree);
      assert Shape(scopes)[s] == tree[s];
      scopes := scopes[s := scopes[s].(nextChildIndex := 0)];
      ghost var before := scopes;
      assert Shape(scopes) == tree by {
        forall j | 0 <= j < |scopes| ensures Shape(scopes)[j] == tree[j] {
          assert Shape(old(scopes))[j] == tree[j];
        }
      }
      var children := scopes[s].children;
      assert Shape(scopes)[s] == tree[s];
      assert ScopeOk(tree, s);
      for k := 0 to |children|
        invariant Shape(scopes) == tree && |scopes| == |tree| && current == old(current)
        invariant forall j :: 0 <= j < |scopes| ==>
                    scopes[j] == if j == s || UnderAny(tree, children[..k], j) then tree[j] else old(scopes[j])
      {
        ghost var prev := scopes;
        ResetIterators(children[k], tree);
        forall j | 0 <= j < |scopes|
          ensures scopes[j] == if j == s || UnderAny(tree, children[..k + 1], j) then tree[j] else old(scopes[j])
        {
          UnderAnyStep(tree, children, k, j);
        }
      }
      assert children[..|children|] == children;
      forall j | 0 <= j < |scopes| && j != s
        ensures InSubtree(tree, s, j) <==> UnderAny(tree, children, j)
      {
        SubtreeThroughChild(tree, s, j);
      }
    }

    method GetLocalsSize() returns (size: int)
      requires Valid()
      ensures size == LocalsSize(State())
    {
      size := -scopes[current].currentOffset - 16;
    }

    method GetCurrentNestingLevel() returns (level: nat)
      requires Valid()
      ensures level == Level(State())
    {
      level := scopes[current].nestingLevel;
    }

    /** Declares `id` in the current scope; the source's two-argument
        overload is the call with `value == None`. */
    method AddSymbol(id: string, kind: SymbolKind, value: Option<int>) returns (added: bool)
      requires Valid()
      modifies this
      ensures (State(), added) == Declare(old(State()), id, kind, value) && Valid()
    {
      var cur := scopes[current];
      if id in cur.symbols {
        return false;
      }
      var symbol := new Symbol.WithValue(id, kind, value);
      symbol.SetNestingLevel(cur.nestingLevel);
      var offset := cur.currentOffset;
      if kind == Var {
        symbol.SetOffset(cur.currentOffset);
        offset := cur.currentOffset - Slot;
      }
      scopes := scopes[current := cur.(symbols := cur.symbols[id := symbol.Snapshot()], currentOffset := offset)];
      added := true;
    }

    /** Walks the parent chain from the current scope. */
    method Lookup(id: string) returns (symbol: Option<SymbolEntry>)
      requires Valid()
      ensures symbol == ScopeTree.Lookup(State(), id)
    {
      ValidParents(scopes);
      var scope: Option<nat> := Some(current);
      while scope.Some?
        invariant scope.Some? ==> scope.value < |scopes|
        invariant ScopeTree.Lookup(State(), id) == if scope.Some? then Resolve(scopes, scope.value, id) else None
        decreases if scope.Some? then scope.value + 1 else 0
      {
        var s := scope.value;
        if id in scopes[s].symbols {
          return Some(scopes[s].symbols[id]);
        }
        scope := scopes[s].parent;
      }
      return None;
    }

    method Contains(id: string) returns (found: bool)
      requires Valid()
      ensures found <==> ScopeTree.Lookup(State(), id).Some?
    {
      var symbol := Lookup(id);
      found := symbol.Some?;
    }
  }
}

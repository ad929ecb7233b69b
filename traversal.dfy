/** The second and third passes re-walk the tree the declaration pass built:
    at every procedure they enter the next child of the current scope and
    leave it again afterwards.  This module states what such a walk does to
    the table when the tree has the shape the declaration pass lays out, and
    what a name means in a scope regardless of the cursors. */
module Traversal {
  import opened Wrappers
  import opened Symbols
  import opened Ast
  import opened ScopeTree
  import opened Declarations

  // ---------------------------------------------------------------------
  // Names visible from a scope

  /** Every name visible from `s`, an inner declaration hiding an outer one. */
  function Visible(sc: seq<Scope>, s: nat): map<string, SymbolEntry>
    requires ParentsOk(sc) && s < |sc|
    decreases s
  {
    match sc[s].parent
    case None => sc[s].symbols
    case Some(p) => Visible(sc, p) + sc[s].symbols
  }

  function Find(env: map<string, SymbolEntry>, id: string): Option<SymbolEntry> {
    if id in env then Some(env[id]) else None
  }

  /** The visible names are exactly what lookup finds. */
  lemma {:induction false} VisibleResolves(sc: seq<Scope>, s: nat, id: string)
    requires ParentsOk(sc) && s < |sc|
    ensures Find(Visible(sc, s), id) == Resolve(sc, s, id)
    decreases s
  {
    match sc[s].parent
    case None =>
    case Some(p) => VisibleResolves(sc, p, id);
  }

  lemma LookupIsFind(t: Table, id: string)
    requires Valid(t)
    ensures ParentsOk(t.scopes)
    ensures ScopeTree.Lookup(t, id) == Find(Visible(t.scopes, t.current), id)
  {
    ValidParents(t.scopes);
    VisibleResolves(t.scopes, t.current, id);
  }

  /** Cursors do not change what is visible. */
  lemma {:induction false} VisibleIgnoresCursors(sc: seq<Scope>, sc': seq<Scope>, s: nat)
    requires ParentsOk(sc) && ParentsOk(sc') && s < |sc| && Shape(sc) == Shape(sc')
    ensures Visible(sc, s) == Visible(sc', s)
    decreases s
  {
    assert Shape(sc)[s] == Shape(sc')[s];
    match sc[s].parent
    case None =>
    case Some(p) => VisibleIgnoresCursors(sc, sc', p);
  }

  /** The table with every cursor at zero is valid. */
  lemma ShapeValid(t: Table)
    requires Valid(t)
    ensures ValidScopes(Shape(t.scopes)) && ParentsOk(Shape(t.scopes))
  {
    var r := ResetCursors(t);
    ValidParents(r.scopes);
  }

  lemma VisibleOfShape(t: Table)
    requires Valid(t)
    ensures ParentsOk(t.scopes) && ParentsOk(Shape(t.scopes))
    ensures Visible(t.scopes, t.current) == Visible(Shape(t.scopes), t.current)
  {
    ValidParents(t.scopes);
    ShapeValid(t);
    ShapeIdempotent(t.scopes);
    VisibleIgnoresCursors(t.scopes, Shape(t.scopes), t.current);
  }

  /** Shaped does not look at cursors. */
  lemma ShapedIgnoresCursors(sc: seq<Scope>, sc': seq<Scope>, s: nat, b: Block)
    requires Shaped(sc, s, b) && Shape(sc) == Shape(sc')
    ensures Shaped(sc', s, b)
  {
    forall j | s <= j < s + Size(b) ensures sc'[j].children == sc[j].children {
      assert Shape(sc)[j] == Shape(sc')[j];
    }
    ShapedFrame(sc, sc', s, b);
  }

  // ---------------------------------------------------------------------
  // One walk over a block

  /** Ready to walk `b`: its scope is current, the tree has b's shape and
      none of b's scopes has been entered yet. */
  ghost predicate BlockPre(t: Table, b: Block) {
    && Valid(t)
    && Shaped(t.scopes, t.current, b)
    && forall j :: t.current <= j < t.current + Size(b) ==> t.scopes[j].nextChildIndex == 0
  }

  /** After walking `b` from `t`: back in b's scope, nothing but cursors
      changed, and the cursors of exactly b's scopes sit past their last
      child. */
  ghost predicate BlockPost(t: Table, r: Table, b: Block)
    requires t.current + Size(b) <= |t.scopes|
  {
    && Valid(r) && r.current == t.current
    && Shape(r.scopes) == Shape(t.scopes)
    && forall j :: 0 <= j < |t.scopes| ==>
         r.scopes[j].nextChildIndex ==
           if t.current <= j < t.current + Size(b) then |t.scopes[j].children| else t.scopes[j].nextChildIndex
  }

  /** Partway through b's procedures: the first `i` have been walked. */
  ghost predicate ProcsInv(t0: Table, t: Table, b: Block, i: nat) {
    var s := t0.current;
    && BlockPre(t0, b) && i <= |b.procs|
    && Valid(t) && t.current == s
    && Shape(t.scopes) == Shape(t0.scopes) && |t.scopes| == |t0.scopes|
    && t.scopes[s].nextChildIndex == i
    && (forall j :: s + 1 <= j < s + 1 + Span(b, i) && j < |t0.scopes| ==> t.scopes[j].nextChildIndex == |t0.scopes[j].children|)
    && (forall j :: 0 <= j < |t0.scopes| && !(s <= j < s + 1 + Span(b, i)) ==>
          t.scopes[j].nextChildIndex == t0.scopes[j].nextChildIndex)
  }

  lemma ProcsStart(t0: Table, b: Block)
    requires BlockPre(t0, b)
    ensures ProcsInv(t0, t0, b, 0)
  {
  }

  /** Entering the `i`-th procedure enters its own scope, ready to be walked. */
  lemma ProcsEnter(t0: Table, t: Table, b: Block, i: nat)
    requires ProcsInv(t0, t, b, i) && i < |b.procs|
    ensures var (t1, ok) := EnterNextChild(t);
            && ok && t1.current == t0.current + 1 + Span(b, i)
            && Shape(t1.scopes) == Shape(t0.scopes)
            && BlockPre(t1, b.procs[i].body)
  {
    var s := t0.current;
    assert ChildShaped(t0.scopes, s, b, i);
    assert Shape(t.scopes)[s] == Shape(t0.scopes)[s];
    var t1 := EnterNextChild(t).0;
    var c := s + 1 + Span(b, i);
    var body := b.procs[i].body;
    SpanMonotonic(b, i + 1, |b.procs|);
    ShapedIgnoresCursors(t0.scopes, t1.scopes, c, body);
    forall j | c <= j < c + Size(body) ensures t1.scopes[j].nextChildIndex == 0 {
      assert t1.scopes[j] == t.scopes[j];
    }
  }

  /** Leaving the `i`-th procedure after walking its body returns to b's scope
      with the first `i + 1` procedures walked. */
  lemma ProcsLeave(t0: Table, t: Table, t2: Table, b: Block, i: nat)
    requires ProcsInv(t0, t, b, i) && i < |b.procs|
    requires EnterNextChild(t).0.current + Size(b.procs[i].body) <= |EnterNextChild(t).0.scopes|
    requires BlockPost(EnterNextChild(t).0, t2, b.procs[i].body)
    ensures Exit(t2).1 && ProcsInv(t0, Exit(t2).0, b, i + 1)
  {
    ProcsEnter(t0, t, b, i);
    var s := t0.current;
    var t1 := EnterNextChild(t).0;
    var c := s + 1 + Span(b, i);
    var body := b.procs[i].body;
    assert t1.scopes[c].parent == Some(s);
    assert Shape(t2.scopes)[c] == Shape(t1.scopes)[c];
    var t3 := Exit(t2).0;
    assert t3.current == s;
    assert Span(b, i + 1) == c - s - 1 + Size(body);
    forall j | 0 <= j < |t0.scopes|
      ensures Shape(t3.scopes)[j] == Shape(t0.scopes)[j]
      ensures t3.scopes[j].children == t0.scopes[j].children
    {
      assert Shape(t3.scopes)[j] == Shape(t0.scopes)[j];
    }
  }

  lemma ProcsFinish(t0: Table, t: Table, b: Block)
    requires ProcsInv(t0, t, b, |b.procs|)
    ensures BlockPost(t0, t, b)
  {
    var s := t0.current;
    forall j | s <= j < s + Size(b) && j == s ensures t.scopes[j].nextChildIndex == |t0.scopes[j].children| {
    }
  }

  /** After a reset, a table whose tree the declaration pass built for the
      program is ready to be walked again from the root. */
  lemma ResetReady(t: Table, p: Program)
    requires Valid(t) && Shaped(t.scopes, 0, p.block)
    ensures BlockPre(ResetCursors(t), p.block)
  {
    var r := ResetCursors(t);
    ShapeIdempotent(t.scopes);
    ShapedIgnoresCursors(t.scopes, r.scopes, 0, p.block);
  }
}

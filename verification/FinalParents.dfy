/**
  The shape of the final menu tree.  One pass over the parsed tree, with a stack of the
  symbols whose implicit menus are still open, tells the final parent of every node; nothing
  is moved.  Finalisation is shown to arrive at these parents.
 */
module FinalParents {
  import opened MenuTree

  /** Nodes that keep their children: those with a prompt, and choices. */
  predicate Holds(n: MenuNode) { n.prompt || n.kind == ChoiceItem }

  /** Where the children of `n` end up if `n` itself ends up below `p`. */
  function HolderOf(n: MenuNode, p: MenuNode): MenuNode { if Holds(n) then n else p }

  /** A symbol with an open implicit menu, and where the nodes in it end up. */
  type Open = (MenuNode, MenuNode)

  /** The menus that a node which does not depend on their symbols closes. */
  function Close(dep: AutoDep, open: seq<Open>, n: MenuNode): seq<Open> {
    if open != [] && !dep(open[|open| - 1].0, n) then Close(dep, open[..|open| - 1], n) else open
  }

  function ParentIn(holder: MenuNode, open: seq<Open>): MenuNode {
    if open == [] then holder else open[|open| - 1].1
  }

  type Placement = (MenuNode, MenuNode)

  function Emit(n: MenuNode, p: MenuNode): seq<Placement> { if n.kind == IfItem then [] else [(n, p)] }

  /** The nodes of `t` in definition order, without `if` nodes, each with its final parent:
      the symbol of the innermost open implicit menu, or else the menu, choice or `if` it was
      written in; if that one has no prompt and is no choice, the parent of it, and so on.  A
      menu of a symbol is open for the following siblings as long as they depend on the
      symbol, or are in menus opened inside it. */
  ghost function Placed(dep: AutoDep, holder: MenuNode, open: seq<Open>, t: Tree): seq<Placement>
    decreases t
  {
    if t.Nil? then []
    else
      var open' := Close(dep, open, t.n);
      var p := ParentIn(holder, open');
      Emit(t.n, p) + Placed(dep, HolderOf(t.n, p), [], t.kids)
      + Placed(dep, holder, if t.n.kind == SymbolItem then open' + [(t.n, HolderOf(t.n, p))] else open', t.rest)
  }

  /** The nodes of a tree with the parents they have in it. */
  ghost function Pairs(t: Tree, p: MenuNode): seq<Placement> {
    if t.Nil? then [] else [(t.n, p)] + Pairs(t.kids, t.n) + Pairs(t.rest, p)
  }

  /** The same, if the nodes that do not hold children were to pass them on. */
  ghost function Passed(t: Tree, p: MenuNode): seq<Placement> {
    if t.Nil? then [] else Emit(t.n, p) + Passed(t.kids, HolderOf(t.n, p)) + Passed(t.rest, p)
  }

  // ----- Cleaning a level changes nothing about this -----

  lemma {:induction false} PassedAppend(a: Tree, b: Tree, p: MenuNode)
    ensures Passed(Append(a, b), p) == Passed(a, p) + Passed(b, p)
  {
    if a.Node? {
      PassedAppend(a.rest, b, p);
      var x, y := Emit(a.n, p), Passed(a.kids, HolderOf(a.n, p));
      assert x + y + (Passed(a.rest, p) + Passed(b, p)) == (x + y + Passed(a.rest, p)) + Passed(b, p);
    }
  }

  lemma {:induction false} FlattenPassed(t: Tree, p: MenuNode)
    ensures Passed(Flatten(t), p) == Passed(t, p)
    decreases Size(t)
  {
    if t.Node? {
      if t.kids.Node? && Flattens(t.n) {
        var a := Append(t.kids, t.rest);
        AppendFacts(t.kids, t.rest);
        PassedAppend(t.kids, t.rest, p);
        FlattenPassed(a, p);
        assert Emit(t.n, p) + [] + Passed(a, p) == Passed(t, p);
      } else {
        FlattenPassed(t.rest, p);
      }
    }
  }

  lemma {:induction false} RemoveIfsPassed(t: Tree, p: MenuNode)
    requires IfsBare(t)
    ensures Passed(RemoveIfs(t), p) == Passed(t, p)
  {
    if t.Node? { RemoveIfsPassed(t.rest, p); }
  }

  lemma CleanPassed(t: Tree, p: MenuNode)
    requires KidsNoIfs(t) && IfsPromptless(t)
    ensures Passed(Clean(t), p) == Passed(t, p)
  {
    FlattenPassed(t, p);
    FlattenOrder(t);
    RemoveIfsPassed(Flatten(t), p);
  }

  // ----- Finalisation arrives at the placement -----

  lemma {:induction false} CloseAll(dep: AutoDep, open: seq<Open>, n: MenuNode, o: Open)
    ensures !dep(o.0, n) ==> Close(dep, open + [o], n) == Close(dep, open, n)
    ensures dep(o.0, n) ==> Close(dep, open + [o], n) == open + [o]
    ensures ParentIn(n, open + [o]) == o.1
  {
    assert (open + [o])[..|open|] == open;
  }

  lemma {:induction false} FinalizePlaced(dep: AutoDep, t: Tree, holder: MenuNode, open: seq<Open>)
    requires t.Node? && Parsed(t) && IfsPromptless(t)
    ensures var open' := Close(dep, open, t.n);
      var p, r := ParentIn(holder, open'), Finalize(dep, t);
      Placed(dep, holder, open, t)
        == Emit(t.n, p) + Passed(r.kids, HolderOf(t.n, p)) + Placed(dep, holder, open', r.rest)
    decreases Size(t), 1
  {
    var open' := Close(dep, open, t.n);
    var p := ParentIn(holder, open');
    var h := HolderOf(t.n, p);
    if t.n.kind == SymbolItem {
      AbsorbPlaced(dep, t.n, t.rest, holder, open', h);
      AbsorbOrder(dep, t.n, t.rest);
      var (taken, left) := Absorb(dep, t.n, t.rest);
      CleanPassed(taken, h);
      assert Emit(t.n, p) + [] == Emit(t.n, p);
      SeqAssoc(Emit(t.n, p), Passed(taken, h), Placed(dep, holder, open', left));
    } else {
      FinalizeListPlaced(dep, t.kids, h);
      FinalizeListOrder(dep, t.kids);
      CleanPassed(FinalizeList(dep, t.kids), h);
    }
  }

  /** The first node of an implicit menu, and the menu after it. */
  lemma AbsorbStep(dep: AutoDep, n: MenuNode, t: Tree, h: MenuNode)
    requires t.Node? && dep(n, t.n)
    ensures var f := Finalize(dep, t);
      && Absorb(dep, n, t).1 == Absorb(dep, n, f.rest).1
      && Passed(Absorb(dep, n, t).0, h)
        == Emit(t.n, h) + Passed(f.kids, HolderOf(t.n, h)) + Passed(Absorb(dep, n, f.rest).0, h)
  {
  }

  lemma {:induction false} AbsorbPlaced(dep: AutoDep, n: MenuNode, t: Tree, holder: MenuNode, open: seq<Open>,
    h: MenuNode)
    requires Parsed(t) && IfsPromptless(t)
    ensures Placed(dep, holder, open + [(n, h)], t)
      == Passed(Absorb(dep, n, t).0, h) + Placed(dep, holder, open, Absorb(dep, n, t).1)
    decreases Size(t), 2
  {
    if t.Node? {
      CloseAll(dep, open, t.n, (n, h));
      if dep(n, t.n) {
        FinalizePlaced(dep, t, holder, open + [(n, h)]);
        FinalizeOrder(dep, t);
        AbsorbStep(dep, n, t, h);
        var f := Finalize(dep, t);
        AbsorbPlaced(dep, n, f.rest, holder, open, h);
        SeqAssoc(Emit(t.n, h) + Passed(f.kids, HolderOf(t.n, h)), Passed(Absorb(dep, n, f.rest).0, h),
          Placed(dep, holder, open, Absorb(dep, n, f.rest).1));
      } else {
        assert Absorb(dep, n, t) == (Nil, t);
      }
    }
  }

  lemma {:induction false} FinalizeListPlaced(dep: AutoDep, t: Tree, holder: MenuNode)
    requires Parsed(t) && IfsPromptless(t)
    ensures Placed(dep, holder, [], t) == Passed(FinalizeList(dep, t), holder)
    decreases Size(t), 2
  {
    if t.Node? {
      FinalizePlaced(dep, t, holder, []);
      FinalizeOrder(dep, t);
      FinalizeListPlaced(dep, Finalize(dep, t).rest, holder);
    }
  }

  // ----- In the final tree only holders have children -----

  ghost predicate Held(t: Tree) { t.Node? ==> (t.kids.Node? ==> Holds(t.n)) && Held(t.kids) && Held(t.rest) }

  ghost predicate KidsHeld(t: Tree) { t.Node? ==> Held(t.kids) && KidsHeld(t.rest) }

  lemma {:induction false} HeldAppend(a: Tree, b: Tree)
    requires Held(a) && KidsHeld(b)
    ensures KidsHeld(Append(a, b))
  {
    if a.Node? { HeldAppend(a.rest, b); }
  }

  lemma {:induction false} FlattenHeld(t: Tree)
    requires KidsHeld(t)
    ensures Held(Flatten(t))
    decreases Size(t)
  {
    if t.Node? {
      if t.kids.Node? && Flattens(t.n) {
        AppendFacts(t.kids, t.rest);
        HeldAppend(t.kids, t.rest);
        FlattenHeld(Append(t.kids, t.rest));
      } else {
        FlattenHeld(t.rest);
      }
    }
  }

  lemma {:induction false} RemoveIfsHeld(t: Tree)
    requires Held(t)
    ensures Held(RemoveIfs(t))
  {
    if t.Node? { RemoveIfsHeld(t.rest); }
  }

  lemma {:induction false} FinalizeHeld(dep: AutoDep, t: Tree)
    requires t.Node? && Parsed(t) && IfsPromptless(t)
    ensures Held(Finalize(dep, t).kids)
    decreases Size(t), 1
  {
    if t.n.kind == SymbolItem {
      AbsorbHeld(dep, t.n, t.rest);
      FlattenHeld(Absorb(dep, t.n, t.rest).0);
      RemoveIfsHeld(Flatten(Absorb(dep, t.n, t.rest).0));
    } else {
      ListHeld(dep, t.kids);
      FlattenHeld(FinalizeList(dep, t.kids));
      RemoveIfsHeld(Flatten(FinalizeList(dep, t.kids)));
    }
  }

  lemma {:induction false} AbsorbHeld(dep: AutoDep, n: MenuNode, t: Tree)
    requires Parsed(t) && IfsPromptless(t)
    ensures KidsHeld(Absorb(dep, n, t).0)
    decreases Size(t), 2
  {
    if t.Node? && dep(n, t.n) {
      FinalizeHeld(dep, t);
      FinalizeOrder(dep, t);
      AbsorbHeld(dep, n, Finalize(dep, t).rest);
    }
  }

  lemma {:induction false} ListHeld(dep: AutoDep, t: Tree)
    requires Parsed(t) && IfsPromptless(t)
    ensures KidsHeld(FinalizeList(dep, t))
    decreases Size(t), 2
  {
    if t.Node? {
      FinalizeHeld(dep, t);
      FinalizeOrder(dep, t);
      ListHeld(dep, Finalize(dep, t).rest);
    }
  }

  lemma {:induction false} HeldPasses(t: Tree, p: MenuNode)
    requires Held(t) && NoIfs(t)
    ensures Passed(t, p) == Pairs(t, p)
  {
    if t.Node? {
      HeldPasses(t.kids, t.n);
      HeldPasses(t.rest, p);
    }
  }

  /** The final tree below a menu: the nodes of the placement, in that order, with those
      parents; and only nodes with a prompt and choices have children. */
  lemma ParentsArePlaced(dep: AutoDep, top: MenuNode, t: Tree)
    requires top.kind == MenuItem && top.prompt && Parsed(t) && IfsPromptless(t)
    ensures var r := Finalize(dep, Node(top, t, Nil)).kids;
      Pairs(r, top) == Placed(dep, top, [], t) && Held(r)
  {
    var whole := Node(top, t, Nil);
    FinalizeListPlaced(dep, t, top);
    FinalizeListOrder(dep, t);
    CleanPassed(FinalizeList(dep, t), top);
    DefinitionOrderKept(dep, whole);
    FinalizeHeld(dep, whole);
    HeldPasses(Finalize(dep, whole).kids, top);
  }
}

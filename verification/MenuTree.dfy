/**
  The menu tree: implicit menus, flattening and removal of `if` nodes, as a function on
  trees.  A tree here is a list of siblings: the first node, its children, and the
  remaining siblings, which is what the `list` and `next` pointers hold.
 */
module MenuTree {

  datatype Kind = SymbolItem | ChoiceItem | MenuItem | CommentItem | IfItem

  /** A menu node: what does not change after parsing.  The links are in module `MenuHeap`. */
  datatype MenuNode = MenuNode(id: nat, kind: Kind, prompt: bool)

  datatype Tree = Nil | Node(n: MenuNode, kids: Tree, rest: Tree)

  ghost function Size(t: Tree): nat { if t.Nil? then 0 else 1 + Size(t.kids) + Size(t.rest) }

  ghost function Nodes(t: Tree): set<MenuNode> {
    if t.Nil? then {} else {t.n} + Nodes(t.kids) + Nodes(t.rest)
  }

  /** Definition order: a node, then its children, then the nodes after it. */
  ghost function Preorder(t: Tree): seq<MenuNode> {
    if t.Nil? then [] else [t.n] + Preorder(t.kids) + Preorder(t.rest)
  }

  /** The sequence without the `if` nodes. */
  ghost function WithoutIfs(s: seq<MenuNode>): seq<MenuNode> {
    if s == [] then [] else (if s[0].kind == IfItem then [] else [s[0]]) + WithoutIfs(s[1..])
  }

  lemma {:induction false} WithoutIfsConcat(a: seq<MenuNode>, b: seq<MenuNode>)
    ensures WithoutIfs(a + b) == WithoutIfs(a) + WithoutIfs(b)
  {
    if a == [] {
      assert a + b == b;
    } else {
      assert (a + b)[1..] == a[1..] + b;
      WithoutIfsConcat(a[1..], b);
    }
  }

  /** Siblings `a` followed by siblings `b`. */
  ghost function Append(a: Tree, b: Tree): Tree { if a.Nil? then b else Node(a.n, a.kids, Append(a.rest, b)) }

  lemma {:induction false} AppendFacts(a: Tree, b: Tree)
    ensures Preorder(Append(a, b)) == Preorder(a) + Preorder(b)
    ensures Size(Append(a, b)) == Size(a) + Size(b) && Nodes(Append(a, b)) == Nodes(a) + Nodes(b)
  {
    if a.Node? {
      AppendFacts(a.rest, b);
      assert [a.n] + Preorder(a.kids) + (Preorder(a.rest) + Preorder(b)) == Preorder(a) + Preorder(b);
    }
  }

  // ----- What finalisation does to a tree -----

  /** "`b` has an automatic menu dependency on `a`" */
  type AutoDep = (MenuNode, MenuNode) -> bool

  predicate Flattens(n: MenuNode) { !n.prompt && n.kind != ChoiceItem }

  ghost function Flatten(t: Tree): Tree
    decreases Size(t)
  {
    if t.Nil? then Nil
    else if t.kids.Node? && Flattens(t.n) then
      AppendFacts(t.kids, t.rest);
      Node(t.n, Nil, Flatten(Append(t.kids, t.rest)))
    else Node(t.n, t.kids, Flatten(t.rest))
  }

  ghost function RemoveIfs(t: Tree): Tree {
    if t.Nil? then Nil
    else if t.n.kind == IfItem then RemoveIfs(t.rest)
    else Node(t.n, t.kids, RemoveIfs(t.rest))
  }

  lemma {:induction false} CleanSize(t: Tree)
    ensures Size(Flatten(t)) == Size(t) && Size(RemoveIfs(t)) <= Size(t)
    decreases Size(t)
  {
    if t.Node? {
      if t.kids.Node? && Flattens(t.n) {
        AppendFacts(t.kids, t.rest);
        CleanSize(Append(t.kids, t.rest));
      } else {
        CleanSize(t.rest);
      }
      CleanSize(t.rest);
    }
  }

  /** The last steps on a level: _flatten() and _remove_ifs() */
  ghost function Clean(t: Tree): (r: Tree)
    ensures Size(r) <= Size(t)
  {
    CleanSize(t);
    CleanSize(Flatten(t));
    RemoveIfs(Flatten(t))
  }

  /** Finalisation of the first node of `t`.  A symbol takes the following siblings that
      depend on it as its children; what is left over is not finalised yet. */
  ghost function Finalize(dep: AutoDep, t: Tree): (r: Tree)
    requires t.Node?
    ensures r.Node? && r.n == t.n && Size(r) <= Size(t)
    decreases Size(t), 1
  {
    if t.n.kind == SymbolItem then
      var (taken, left) := Absorb(dep, t.n, t.rest);
      if taken.Nil? then Node(t.n, Clean(t.kids), left) else Node(t.n, Clean(taken), left)
    else Node(t.n, Clean(FinalizeList(dep, t.kids)), t.rest)
  }

  /** The siblings that go into the implicit menu of `n`, finalised, and the others. */
  ghost function Absorb(dep: AutoDep, n: MenuNode, t: Tree): (r: (Tree, Tree))
    ensures Size(r.0) + Size(r.1) <= Size(t)
    ensures r.0.Nil? ==> r.1 == t
    decreases Size(t), 2
  {
    if t.Nil? || !dep(n, t.n) then (Nil, t)
    else
      var f := Finalize(dep, t);
      var (taken, left) := Absorb(dep, n, f.rest);
      (Node(f.n, f.kids, taken), left)
  }

  ghost function FinalizeList(dep: AutoDep, t: Tree): (r: Tree)
    ensures Size(r) <= Size(t)
    decreases Size(t), 2
  {
    if t.Nil? then Nil
    else
      var f := Finalize(dep, t);
      Node(f.n, f.kids, FinalizeList(dep, f.rest))
  }

  // ----- Definition order is kept -----

  /** As parsed: symbols and comments have no children yet. */
  ghost predicate Parsed(t: Tree) {
    t.Node? ==>
      && (t.n.kind == SymbolItem || t.n.kind == CommentItem ==> t.kids.Nil?)
      && Parsed(t.kids) && Parsed(t.rest)
  }

  ghost predicate NoIfs(t: Tree) { t.Node? ==> t.n.kind != IfItem && NoIfs(t.kids) && NoIfs(t.rest) }

  /** Only the top level may still have `if` nodes... */
  ghost predicate KidsNoIfs(t: Tree) { t.Node? ==> NoIfs(t.kids) && KidsNoIfs(t.rest) }

  /** ... and they have no children. */
  ghost predicate IfsBare(t: Tree) { t.Node? ==> (t.n.kind == IfItem ==> t.kids.Nil?) && IfsBare(t.rest) }

  /** Promptless nodes other than choices: `if` nodes have no prompt. */
  ghost predicate IfsPromptless(t: Tree) {
    t.Node? ==> (t.n.kind == IfItem ==> !t.n.prompt) && IfsPromptless(t.kids) && IfsPromptless(t.rest)
  }

  lemma {:induction false} NoIfsOrder(t: Tree)
    requires NoIfs(t)
    ensures WithoutIfs(Preorder(t)) == Preorder(t)
  {
    if t.Node? {
      NoIfsOrder(t.kids);
      NoIfsOrder(t.rest);
      NodeOrder(t);
    }
  }

  /** WithoutIfs() of the order of a tree, part by part */
  lemma NodeOrder(t: Tree)
    requires t.Node?
    ensures WithoutIfs(Preorder(t)) ==
      WithoutIfs([t.n]) + WithoutIfs(Preorder(t.kids)) + WithoutIfs(Preorder(t.rest))
  {
    WithoutIfsConcat([t.n] + Preorder(t.kids), Preorder(t.rest));
    WithoutIfsConcat([t.n], Preorder(t.kids));
  }

  lemma {:induction false} AppendClean(a: Tree, b: Tree)
    requires NoIfs(a) && KidsNoIfs(b) && IfsPromptless(a) && IfsPromptless(b)
    ensures KidsNoIfs(Append(a, b)) && IfsPromptless(Append(a, b))
  {
    if a.Node? { AppendClean(a.rest, b); }
  }

  lemma {:induction false} FlattenOrder(t: Tree)
    requires KidsNoIfs(t) && IfsPromptless(t)
    ensures Preorder(Flatten(t)) == Preorder(t)
    ensures KidsNoIfs(Flatten(t)) && IfsBare(Flatten(t)) && IfsPromptless(Flatten(t))
    decreases Size(t)
  {
    if t.Node? {
      if t.kids.Node? && Flattens(t.n) {
        var a := Append(t.kids, t.rest);
        AppendFacts(t.kids, t.rest);
        AppendClean(t.kids, t.rest);
        FlattenOrder(a);
        assert [t.n] + (Preorder(t.kids) + Preorder(t.rest)) == Preorder(t);
      } else {
        FlattenOrder(t.rest);
      }
    }
  }

  lemma {:induction false} RemoveIfsOrder(t: Tree)
    requires KidsNoIfs(t) && IfsBare(t) && IfsPromptless(t)
    ensures Preorder(RemoveIfs(t)) == WithoutIfs(Preorder(t))
    ensures NoIfs(RemoveIfs(t)) && IfsPromptless(RemoveIfs(t))
  {
    if t.Node? {
      RemoveIfsOrder(t.rest);
      NodeOrder(t);
      NoIfsOrder(t.kids);
    }
  }

  lemma CleanOrder(t: Tree)
    requires KidsNoIfs(t) && IfsPromptless(t)
    ensures Preorder(Clean(t)) == WithoutIfs(Preorder(t))
    ensures NoIfs(Clean(t)) && IfsPromptless(Clean(t))
  {
    FlattenOrder(t);
    RemoveIfsOrder(Flatten(t));
  }

  /** What one call keeps: the order without `if` nodes; its children have none left. */
  lemma {:induction false} FinalizeOrder(dep: AutoDep, t: Tree)
    requires t.Node? && Parsed(t) && IfsPromptless(t)
    ensures var r := Finalize(dep, t);
      && Preorder(r.kids) + WithoutIfs(Preorder(r.rest)) == WithoutIfs(Preorder(t.kids)) + WithoutIfs(Preorder(t.rest))
      && NoIfs(r.kids) && IfsPromptless(r) && Parsed(r.rest)
    decreases Size(t), 1
  {
    if t.n.kind == SymbolItem {
      AbsorbOrder(dep, t.n, t.rest);
      var (taken, left) := Absorb(dep, t.n, t.rest);
      CleanOrder(taken);
    } else {
      FinalizeListOrder(dep, t.kids);
      CleanOrder(FinalizeList(dep, t.kids));
    }
  }

  lemma SeqAssoc<T>(a: seq<T>, b: seq<T>, c: seq<T>)
    ensures a + b + c == a + (b + c)
  {
  }

  /** Finalisation of the first node seen from its list of siblings. */
  lemma FirstNodeOrder(dep: AutoDep, t: Tree)
    requires t.Node?
    requires var r := Finalize(dep, t);
      Preorder(r.kids) + WithoutIfs(Preorder(r.rest)) == WithoutIfs(Preorder(t.kids)) + WithoutIfs(Preorder(t.rest))
    requires NoIfs(Finalize(dep, t).kids)
    ensures var r := Finalize(dep, t);
      WithoutIfs(Preorder(t)) == WithoutIfs([t.n]) + Preorder(r.kids) + WithoutIfs(Preorder(r.rest))
  {
    var r := Finalize(dep, t);
    NodeOrder(t);
    SeqAssoc(WithoutIfs([t.n]), WithoutIfs(Preorder(t.kids)), WithoutIfs(Preorder(t.rest)));
    SeqAssoc(WithoutIfs([t.n]), Preorder(r.kids), WithoutIfs(Preorder(r.rest)));
  }

  lemma {:induction false} AbsorbOrder(dep: AutoDep, n: MenuNode, t: Tree)
    requires Parsed(t) && IfsPromptless(t)
    ensures var (taken, left) := Absorb(dep, n, t);
      && WithoutIfs(Preorder(taken)) + WithoutIfs(Preorder(left)) == WithoutIfs(Preorder(t))
      && KidsNoIfs(taken) && IfsPromptless(taken) && Parsed(left) && IfsPromptless(left)
    decreases Size(t), 2
  {
    if t.Node? && dep(n, t.n) {
      var f := Finalize(dep, t);
      FinalizeOrder(dep, t);
      AbsorbOrder(dep, n, f.rest);
      var (taken, left) := Absorb(dep, n, f.rest);
      FirstNodeOrder(dep, t);
      NodeOrder(Node(f.n, f.kids, taken));
      NoIfsOrder(f.kids);
      SeqAssoc(WithoutIfs([t.n]) + Preorder(f.kids), WithoutIfs(Preorder(taken)), WithoutIfs(Preorder(left)));
    }
  }

  lemma {:induction false} FinalizeListOrder(dep: AutoDep, t: Tree)
    requires Parsed(t) && IfsPromptless(t)
    ensures var r := FinalizeList(dep, t);
      WithoutIfs(Preorder(r)) == WithoutIfs(Preorder(t)) && KidsNoIfs(r) && IfsPromptless(r)
    decreases Size(t), 2
  {
    if t.Node? {
      var f := Finalize(dep, t);
      FinalizeOrder(dep, t);
      FinalizeListOrder(dep, f.rest);
      FirstNodeOrder(dep, t);
      NodeOrder(Node(f.n, f.kids, FinalizeList(dep, f.rest)));
      NoIfsOrder(f.kids);
    }
  }

  /** Finalising the top node leaves exactly the parsed nodes in definition order, minus the
      `if` nodes, whatever implicit menus were made. */
  lemma DefinitionOrderKept(dep: AutoDep, t: Tree)
    requires t.Node? && t.n.kind == MenuItem && t.rest.Nil? && Parsed(t) && IfsPromptless(t)
    ensures var r := Finalize(dep, t);
      && r.rest.Nil? && NoIfs(r) && Preorder(r) == WithoutIfs(Preorder(t))
      && Preorder(r.kids) == WithoutIfs(Preorder(t.kids))
  {
    FinalizeOrder(dep, t);
    FirstNodeOrder(dep, t);
    assert WithoutIfs([t.n]) == [t.n];
    var a, b := Preorder(Finalize(dep, t).kids), WithoutIfs(Preorder(t.kids));
    assert a + [] == a && b + [] == b;
  }
}

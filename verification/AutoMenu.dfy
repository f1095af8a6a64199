/**
  Automatic menu dependencies: when a node goes into the implicit menu of a symbol, and what
  that says about its condition.
 */
module AutoMenu {
  import opened Model
  import opened MenuTree
  import opened Propagate

  const M := NMY(1)

  /** The test that _expr_depends_on() makes on a relation with `s` on one side. */
  predicate RelDepends(rel: Relation, other: Sym) {
    (rel == EQUAL && other == M) || other == NMY(2) || (rel == UNEQUAL && other == NMY(0))
  }

  /** _expr_depends_on() */
  predicate DependsOn(e: Expr, s: nat) {
    match e
    case Ref(x) => x == Defined(s)
    case Rel(rel, a, b) =>
      if rel != EQUAL && rel != UNEQUAL then false
      else if b == Defined(s) then RelDepends(rel, a)
      else a == Defined(s) && RelDepends(rel, b)
    case And(l, r) => DependsOn(l, s) || DependsOn(r, s)
    case _ => false
  }

  /** _auto_menu_dep(): the condition of a node is that of its prompt if it has one. */
  predicate AutoMenuDep(m: Table, a: MenuNode, b: MenuNode) {
    a.kind == SymbolItem && DependsOn(ConditionOf(Of(m, b)), Of(m, a).item)
  }

  function ConditionOf(a: Attrs): Expr { if a.prompt.Some? then a.prompt.value else a.dep }

  /** The expression is a conjunction with `e` in it. */
  ghost predicate Within(e: Expr, all: Expr) { e == all || (all.And? && (Within(e, all.left) || Within(e, all.right))) }

  /** The symbol itself, or a comparison that fails if it is n: with m or y, or not with n. */
  predicate NeedsSymbol(e: Expr, s: nat) {
    var x := Defined(s);
    || e == Ref(x)
    || e == Rel(EQUAL, x, NMY(1)) || e == Rel(EQUAL, x, NMY(2)) || e == Rel(UNEQUAL, x, NMY(0))
    || e == Rel(EQUAL, NMY(1), x) || e == Rel(EQUAL, NMY(2), x) || e == Rel(UNEQUAL, NMY(0), x)
  }

  predicate IsNotY(e: Expr, s: nat) {
    e == Rel(UNEQUAL, Defined(s), NMY(2)) || e == Rel(UNEQUAL, NMY(2), Defined(s))
  }

  /** An expression counts as depending on a symbol if and only if it has a conjunct of the
      documented kind, or one that says that the symbol is not y: the test for y does not ask
      for the relation. */
  lemma {:induction false} DependsExactly(e: Expr, s: nat)
    ensures DependsOn(e, s) <==> exists c :: Within(c, e) && (NeedsSymbol(c, s) || IsNotY(c, s))
  {
    assert Within(e, e);
    match e
    case And(l, r) =>
      DependsExactly(l, s);
      DependsExactly(r, s);
      assert forall c :: Within(c, e) <==> c == e || Within(c, l) || Within(c, r);
    case _ =>
      assert forall c :: Within(c, e) <==> c == e;
      LeafDepends(e, s);
  }

  lemma LeafDepends(e: Expr, s: nat)
    requires !e.And?
    ensures DependsOn(e, s) <==> NeedsSymbol(e, s) || IsNotY(e, s)
  {
  }

  lemma {:induction false} ConjunctLimits(k: Kconfig, u: User, c: Expr, e: Expr, w: World)
    requires Within(c, e)
    ensures ExprVal(k, u, e, w) <= ExprVal(k, u, c, w)
  {
    if c != e {
      if Within(c, e.left) { ConjunctLimits(k, u, c, e.left, w); } else { ConjunctLimits(k, u, c, e.right, w); }
    }
  }

  /** A condition with a conjunct of the documented kind is n whenever the symbol is: the
      nodes in an implicit menu are off with its symbol. */
  lemma DependentIsOff(k: Kconfig, u: User, c: Expr, e: Expr, s: nat, w: World)
    requires BoolTristate(k.Sym(s).origType) && w.tri(s).val == 0
    requires Within(c, e) && NeedsSymbol(c, s)
    ensures ExprVal(k, u, e, w) == 0
  {
    ConjunctLimits(k, u, c, e, w);
  }

  /** The other conjunct puts a node into the menu of a symbol that it is on without. */
  lemma NotYIsOn(k: Kconfig, u: User, s: nat, w: World)
    requires BoolTristate(k.Sym(s).origType) && w.tri(s).val == 0
    ensures DependsOn(Rel(UNEQUAL, Defined(s), NMY(2)), s)
    ensures ExprVal(k, u, Rel(UNEQUAL, Defined(s), NMY(2)), w) == 2
  {
  }
}

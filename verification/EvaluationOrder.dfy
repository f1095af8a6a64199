/** A passed loop check makes evaluation well founded. */
module EvaluationOrder {
  import opened Model
  import opened Evaluation
  import opened Dependencies
  import opened Engine
  import DepLoop

  ghost predicate ChoiceFree(k: Kconfig) { k.choices == [] && forall s: nat :: k.Sym(s).choice.None? }

  /** `g` lists the dependents of every symbol, as _build_dep() collects them. */
  ghost predicate IsGraph(k: Kconfig, g: DepLoop.Graph) {
    |g| == |k.symbols| && DepLoop.GraphOk(g) && forall s: nat :: s < |g| ==> RowIs(k, g[s], s)
  }

  /** `t` depends on `s`. */
  predicate Edge(k: Kconfig, s: nat, t: nat) { t < |k.symbols| && S(s) in DirectDeps(k, S(t)) }

  ghost predicate RowIs(k: Kconfig, row: seq<nat>, s: nat) { forall t: nat :: t in row <==> Edge(k, s, t) }

  /** MODULES depends only on symbols in `a`, none of which is a tristate: the reads of
      MODULES by `type` are not edges of the graph. */
  ghost predicate ModulesApart(k: Kconfig, a: set<nat>) {
    && (k.modules.Some? ==> k.modules.value in a)
    && (forall s: nat, t: nat :: s in a && S(t) in Deps(k, S(s)) ==> t in a)
    && (forall s: nat :: s in a ==> k.Sym(s).origType != TRISTATE)
  }

  /** A number above the ranks of the first `n` symbols. */
  ghost function Top(rank: nat -> nat, n: nat): (m: nat)
    ensures forall s: nat :: s < n ==> rank(s) < m
  {
    if n == 0 then 1 else var m := Top(rank, n - 1); if rank(n - 1) < m then m else rank(n - 1) + 1
  }

  /** Evaluation goes against the direction of the graph; MODULES and what it needs come first. */
  ghost function Level(k: Kconfig, rank: nat -> nat, a: set<nat>, s: nat): nat {
    var top := Top(rank, |k.symbols|);
    if s >= |k.symbols| then 0
    else if s in a then top - rank(s)
    else 2 * top - rank(s)
  }

  ghost function QueryRank(k: Kconfig, rank: nat -> nat, a: set<nat>, q: Query): nat {
    match q
    case Vis(s) => 4 * Level(k, rank, a, s) + 2
    case TriOf(s) => 4 * Level(k, rank, a, s) + 3
    case StrOf(s) => 4 * Level(k, rank, a, s) + 4
    case Asg(s) => 4 * Level(k, rank, a, s) + 5
    case CVis(_) => 0 case Sel(_) => 1 case CAsg(_) => 1
  }

  // ----- Reads without those of MODULES by `type` -----

  function NoModules(k: Kconfig): Kconfig { k.(modules := None) }

  lemma SameTables(k: Kconfig)
    ensures forall s: nat :: NoModules(k).Sym(s) == k.Sym(s)
    ensures forall c: nat :: NoModules(k).Ch(c) == k.Ch(c)
    ensures forall i :: Deps(NoModules(k), i) == Deps(k, i)
  {
  }

  lemma {:induction false} SameExprReads(k: Kconfig, e: Expr)
    requires ChoiceFree(k)
    ensures ExprReads(NoModules(k), e) == ExprReads(k, e)
  {
    match e
    case And(l, r) => SameExprReads(k, l); SameExprReads(k, r);
    case Or(l, r) => SameExprReads(k, l); SameExprReads(k, r);
    case Not(x) => SameExprReads(k, x);
    case _ =>
  }

  lemma SameExprsReads(k: Kconfig, es: seq<Expr>)
    requires ChoiceFree(k)
    ensures ExprsReads(NoModules(k), es) == ExprsReads(k, es)
  {
    forall e ensures ExprReads(NoModules(k), e) == ExprReads(k, e) { SameExprReads(k, e); }
  }

  lemma SamePropertyReads(k: Kconfig, s: nat)
    requires ChoiceFree(k)
    ensures DefaultReads(NoModules(k), s) == DefaultReads(k, s) && RangeReads(NoModules(k), s) == RangeReads(k, s)
    ensures TypeReads(NoModules(k), s) == {} && TypeReads(k, s) == ModulesRead(k, k.Sym(s).origType)
    ensures AsgReads(NoModules(k), s) + TypeReads(k, s) == AsgReads(k, s)
  {
    SameTables(k);
    forall e ensures ExprReads(NoModules(k), e) == ExprReads(k, e) { SameExprReads(k, e); }
    SameExprsReads(k, Conds(k.Sym(s).defaults));
    SameExprsReads(k, RangeConds(k.Sym(s).ranges));
  }

  /** What an equation of a symbol can read: its own quantities, those of symbols that it
      depends on, and MODULES if it is a tristate. */
  lemma SymbolReads(k: Kconfig, q: Query, r: Query)
    requires ChoiceFree(k) && ItemOf(q).S? && r in Reads(k, q)
    ensures r in Own(q) || ItemOf(r) in Deps(k, ItemOf(q)) || r in ModulesRead(k, k.Sym(ItemOf(q).s).origType)
  {
    var k' := NoModules(k);
    SameTables(k);
    if r !in ModulesRead(k, k.Sym(ItemOf(q).s).origType) {
      assert r in Reads(k', q) by {
        SamePropertyReads(k, ItemOf(q).s);
        SameExprsReads(k, k.Sym(ItemOf(q).s).prompts);
        SameExprReads(k, k.Sym(ItemOf(q).s).directDep);
      }
      ReadsAreDeps(k', q, r);
    }
  }

  lemma LevelsDecrease(k: Kconfig, g: DepLoop.Graph, rank: nat -> nat, a: set<nat>, s: nat, t: nat)
    requires ChoiceFree(k) && IsGraph(k, g) && DepLoop.Ranks(g, rank) && ModulesApart(k, a)
    requires S(t) in Deps(k, S(s)) || (k.Sym(s).origType == TRISTATE && k.modules == Some(t))
    ensures Level(k, rank, a, t) < Level(k, rank, a, s)
  {
    assert s < |k.symbols|;
    if S(t) in Deps(k, S(s)) {
      assert S(t) in DirectDeps(k, S(s));
      if t < |k.symbols| {
        assert RowIs(k, g[t], t) && Edge(k, t, s);
        assert s in g[t];
      }
    }
  }

  /** A passed loop check yields a rank for evaluation, so that values exist. */
  lemma PassGivesRank(k: Kconfig, g: DepLoop.Graph, rank: nat -> nat, a: set<nat>)
    requires ChoiceFree(k) && IsGraph(k, g) && DepLoop.Ranks(g, rank) && ModulesApart(k, a)
    ensures WellRanked(k, q => QueryRank(k, rank, a, q))
  {
    forall q, r | r in Reads(k, q) ensures QueryRank(k, rank, a, r) < QueryRank(k, rank, a, q) {
      if ItemOf(q).S? {
        SymbolReads(k, q, r);
        if r !in Own(q) && ItemOf(r).S? {
          LevelsDecrease(k, g, rank, a, ItemOf(q).s, ItemOf(r).s);
        }
      } else {
        assert ItemOf(q).c >= |k.choices|;
      }
    }
  }

  // ----- From a configuration to a working engine -----

  /** Symbols that depend on each other in a circle: each on the next one, and the last one
      on the first. */
  ghost predicate Circle(k: Kconfig, p: seq<nat>) {
    && p != [] && (forall i :: 0 <= i < |p| ==> p[i] < |k.symbols|)
    && (forall i :: 0 <= i < |p| - 1 ==> S(p[i + 1]) in DirectDeps(k, S(p[i])))
    && S(p[0]) in DirectDeps(k, S(p[|p| - 1]))
  }

  lemma LoopIsCircle(k: Kconfig, g: DepLoop.Graph, p: seq<nat>)
    requires IsGraph(k, g)
    ensures DepLoop.Loop(g, p) <==> Circle(k, p)
  {
    if p != [] && forall i :: 0 <= i < |p| ==> p[i] < |g| {
      assert RowIs(k, g[p[0]], p[0]) && (p[|p| - 1] in g[p[0]] <==> Edge(k, p[0], p[|p| - 1]));
      forall i | 0 <= i < |p| - 1 ensures p[i] in g[p[i + 1]] <==> S(p[i + 1]) in DirectDeps(k, S(p[i])) {
        assert RowIs(k, g[p[i + 1]], p[i + 1]) && (p[i] in g[p[i + 1]] <==> Edge(k, p[i + 1], p[i]));
      }
    }
  }

  predicate ListsRow(edges: Edges, n: nat, row: seq<nat>, s: nat) {
    (forall t <- row :: t < n && (S(s), S(t)) in edges) && forall t: nat :: t < n && (S(s), S(t)) in edges ==> t in row
  }

  /** The `_dependents` of one symbol, and of the first `n`, as lists. */
  method DependentsOf(edges: Edges, n: nat, s: nat) returns (row: seq<nat>)
    ensures ListsRow(edges, n, row, s)
  {
    row := [];
    for t := 0 to n
      invariant ListsRow(edges, t, row, s)
    {
      if (S(s), S(t)) in edges { row := row + [t]; }
    }
  }

  method ListsOf(edges: Edges, n: nat) returns (g: DepLoop.Graph)
    ensures |g| == n && DepLoop.GraphOk(g) && forall s: nat :: s < n ==> ListsRow(edges, n, g[s], s)
  {
    g := [];
    for s := 0 to n
      invariant |g| == s && forall x: nat :: x < s ==> ListsRow(edges, n, g[x], x)
    {
      var row := DependentsOf(edges, n, s);
      g := g + [row];
    }
    assert forall i, j :: 0 <= i < |g| && 0 <= j < |g[i]| ==> g[i][j] in g[i];
  }

  lemma ListsAreRows(k: Kconfig, edges: Edges, row: seq<nat>, s: nat)
    requires forall x, y :: (x, y) in edges <==> y in Items(k) && x in DirectDeps(k, y)
    requires ListsRow(edges, |k.symbols|, row, s)
    ensures RowIs(k, row, s)
  {
    forall t: nat ensures t in row <==> Edge(k, s, t) {
      assert S(t) in Items(k) <==> t < |k.symbols|;
      assert (S(s), S(t)) in edges <==> t < |k.symbols| && S(s) in DirectDeps(k, S(t));
    }
  }

  method GraphOf(k: Kconfig) returns (g: DepLoop.Graph)
    ensures IsGraph(k, g)
  {
    var edges := BuildDep(k);
    g := ListsOf(edges, |k.symbols|);
    forall s: nat | s < |g| ensures RowIs(k, g[s], s) { ListsAreRows(k, edges, g[s], s); }
  }

  /** The last part of Kconfig.__init__(), for a configuration without choices: dependencies
      are collected, the loop check runs over all symbols, and if it passes there is an
      engine whose evaluation always terminates.  It raises if and only if there is a circle. */
  method Initialise(k: Kconfig, ghost a: set<nat>) returns (loop: Option<seq<nat>>, kc: Kconf?)
    requires ChoiceFree(k) && ModulesApart(k, a)
    ensures loop.Some? ==> Circle(k, loop.value)
    ensures loop.None? <==> forall p :: !Circle(k, p)
    ensures loop.None? ==> kc != null && fresh(kc) && kc.Valid() && kc.k == k && kc.user == NoUser
  {
    var g := GraphOf(k);
    ghost var rank;
    loop, rank := DepLoop.CheckAll(g);
    forall p ensures DepLoop.Loop(g, p) <==> Circle(k, p) { LoopIsCircle(k, g, p); }
    kc := null;
    if loop.None? {
      PassGivesRank(k, g, rank, a);
      kc := new Kconf(k, q => QueryRank(k, rank, a, q));
    }
  }
}

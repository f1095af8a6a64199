/** The dependency graph that invalidation follows (Symbol/Choice._dependents). */
module Dependencies {
  import opened Model
  import opened Evaluation

  function SymItems(x: Sym): set<Item> { if x.Defined? then {S(x.id)} else {} }

  /** The symbols and choices that appear in an expression. */
  function ExprItems(e: Expr): set<Item> {
    match e
    case Ref(x) => SymItems(x)
    case Mode(c) => {C(c)}
    case And(l, r) => ExprItems(l) + ExprItems(r)
    case Or(l, r) => ExprItems(l) + ExprItems(r)
    case Not(x) => ExprItems(x)
    case Rel(_, a, b) => SymItems(a) + SymItems(b)
  }

  function ExprsItems(es: seq<Expr>): set<Item> { set e, i | e in es && i in ExprItems(e) :: i }

  function DefaultValues(ds: seq<Default>): seq<Expr> {
    seq(|ds|, i requires 0 <= i < |ds| => ds[i].value)
  }

  function RangeEnds(rs: seq<Range>): set<Item> {
    set r, i | r in rs && i in SymItems(r.low) + SymItems(r.high) :: i
  }

  /** What a symbol or choice depends on, as _build_dep() records it. */
  function DirectDeps(k: Kconfig, i: Item): set<Item> {
    match i
    case S(s) =>
      var d := k.Sym(s);
      ExprsItems(d.prompts) + ExprsItems(DefaultValues(d.defaults)) + ExprsItems(Conds(d.defaults))
      + ExprItems(d.revDep) + ExprItems(d.weakRevDep) + RangeEnds(d.ranges)
      + ExprsItems(RangeConds(d.ranges)) + ExprItems(d.directDep)
    case C(c) => ExprsItems(k.Ch(c).prompts) + ExprsItems(ChoiceConds(k.Ch(c).defaults))
  }

  // ----- The same, item by item -----

  predicate IsSym(x: Sym, i: Item) { x.Defined? && i == S(x.id) }

  predicate Mentions(e: Expr, i: Item) {
    match e
    case Ref(x) => IsSym(x, i)
    case Mode(c) => i == C(c)
    case And(l, r) => Mentions(l, i) || Mentions(r, i)
    case Or(l, r) => Mentions(l, i) || Mentions(r, i)
    case Not(x) => Mentions(x, i)
    case Rel(_, a, b) => IsSym(a, i) || IsSym(b, i)
  }

  lemma {:induction false} ExprItemsAre(e: Expr, i: Item)
    ensures i in ExprItems(e) <==> Mentions(e, i)
  {
    match e
    case And(l, r) => ExprItemsAre(l, i); ExprItemsAre(r, i);
    case Or(l, r) => ExprItemsAre(l, i); ExprItemsAre(r, i);
    case Not(x) => ExprItemsAre(x, i);
    case _ =>
  }

  lemma ListedItems(es: seq<Expr>, i: Item)
    ensures i in ExprsItems(es) <==> exists j :: 0 <= j < |es| && Mentions(es[j], i)
  {
    forall e { ExprItemsAre(e, i); }
  }

  lemma DefaultItems(ds: seq<Default>, i: Item)
    ensures i in ExprsItems(DefaultValues(ds)) || i in ExprsItems(Conds(ds)) <==>
      exists j :: 0 <= j < |ds| && (Mentions(ds[j].value, i) || Mentions(ds[j].cond, i))
  {
    ListedItems(DefaultValues(ds), i);
    ListedItems(Conds(ds), i);
    assert forall j :: 0 <= j < |ds| ==> DefaultValues(ds)[j] == ds[j].value && Conds(ds)[j] == ds[j].cond;
  }

  lemma RangeItems(rs: seq<Range>, i: Item)
    ensures i in RangeEnds(rs) || i in ExprsItems(RangeConds(rs)) <==>
      exists j :: 0 <= j < |rs| && (IsSym(rs[j].low, i) || IsSym(rs[j].high, i) || Mentions(rs[j].cond, i))
  {
    ListedItems(RangeConds(rs), i);
    assert forall j :: 0 <= j < |rs| ==> RangeConds(rs)[j] == rs[j].cond && rs[j] in rs;
    if i in RangeEnds(rs) {
      var r :| r in rs && i in SymItems(r.low) + SymItems(r.high);
      var j :| 0 <= j < |rs| && rs[j] == r;
    }
    forall j | 0 <= j < |rs| && (IsSym(rs[j].low, i) || IsSym(rs[j].high, i)) ensures i in RangeEnds(rs) {
      assert i in SymItems(rs[j].low) + SymItems(rs[j].high);
    }
  }

  /** A symbol depends on exactly the symbols and choices that its properties mention: prompt
      conditions, defaults and ranges with their conditions, reverse and direct dependencies. */
  lemma SymbolDepends(k: Kconfig, s: nat, i: Item)
    ensures var d := k.Sym(s);
      i in DirectDeps(k, S(s)) <==>
        || (exists j :: 0 <= j < |d.prompts| && Mentions(d.prompts[j], i))
        || Mentions(d.revDep, i) || Mentions(d.weakRevDep, i) || Mentions(d.directDep, i)
        || (exists j :: 0 <= j < |d.defaults| && (Mentions(d.defaults[j].value, i) || Mentions(d.defaults[j].cond, i)))
        || (exists j :: 0 <= j < |d.ranges| && (IsSym(d.ranges[j].low, i) || IsSym(d.ranges[j].high, i)
                                                || Mentions(d.ranges[j].cond, i)))
  {
    var d := k.Sym(s);
    ListedItems(d.prompts, i);
    DefaultItems(d.defaults, i);
    RangeItems(d.ranges, i);
    ExprItemsAre(d.revDep, i);
    ExprItemsAre(d.weakRevDep, i);
    ExprItemsAre(d.directDep, i);
  }

  /** A choice depends on what its prompt conditions and the conditions of its defaults
      mention; its default symbols do not count. */
  lemma ChoiceDepends(k: Kconfig, c: nat, i: Item)
    ensures var d := k.Ch(c);
      i in DirectDeps(k, C(c)) <==>
        || (exists j :: 0 <= j < |d.prompts| && Mentions(d.prompts[j], i))
        || (exists j :: 0 <= j < |d.defaults| && Mentions(d.defaults[j].cond, i))
  {
    var ds := k.Ch(c).defaults;
    ListedItems(k.Ch(c).prompts, i);
    ListedItems(ChoiceConds(ds), i);
    assert forall j :: 0 <= j < |ds| ==> ChoiceConds(ds)[j] == ds[j].cond;
  }

  /** The same with the edges that _add_choice_deps() adds. */
  function Deps(k: Kconfig, i: Item): set<Item> {
    DirectDeps(k, i) + match i case S(_) => {} case C(c) => (set s | s in k.Ch(c).syms :: S(s))
  }

  predicate InTable(k: Kconfig, i: Item) {
    match i case S(s) => s < |k.symbols| case C(c) => c < |k.choices|
  }

  function Items(k: Kconfig): set<Item> {
    (set s | 0 <= s < |k.symbols| :: S(s)) + set c | 0 <= c < |k.choices| :: C(c)
  }

  function Dependents(k: Kconfig, i: Item): set<Item> { set x | x in Items(k) && i in Deps(k, x) }

  /** The choice of a choice symbol is propagated into the symbol's dependencies, unless
      they have come down to n and the symbol can never be visible. */
  ghost predicate ChoiceEdges(k: Kconfig) {
    forall s: nat {:trigger Deps(k, S(s))} ::
      k.Sym(s).choice.Some? ==> C(k.Sym(s).choice.value) in Deps(k, S(s)) || NeverVisible(k, s)
  }

  predicate IsModules(k: Kconfig, i: Item) { i.S? && k.modules == Some(i.s) }

  /** What an equation reads of its own symbol or choice. */
  function Own(q: Query): (qs: set<Query>)
    ensures forall r :: r in qs ==> ItemOf(r) == ItemOf(q)
  {
    match q
    case Vis(_) => {}
    case TriOf(s) => {Vis(s)}
    case StrOf(s) => {Vis(s), TriOf(s)}
    case Asg(s) => {Vis(s)}
    case CVis(_) => {}
    case Sel(c) => {CVis(c)}
    case CAsg(c) => {CVis(c)}
  }

  lemma {:induction false} ExprReadsAreItems(k: Kconfig, e: Expr, r: Query)
    requires r in ExprReads(k, e) && !IsModules(k, ItemOf(r))
    ensures ItemOf(r) in ExprItems(e)
  {
    match e
    case And(a, b) => if r in ExprReads(k, a) { ExprReadsAreItems(k, a, r); } else { ExprReadsAreItems(k, b, r); }
    case Or(a, b) => if r in ExprReads(k, a) { ExprReadsAreItems(k, a, r); } else { ExprReadsAreItems(k, b, r); }
    case Not(x) => ExprReadsAreItems(k, x, r);
    case _ =>
  }

  lemma ExprsReadsAreItems(k: Kconfig, es: seq<Expr>, r: Query)
    requires r in ExprsReads(k, es) && !IsModules(k, ItemOf(r))
    ensures ItemOf(r) in ExprsItems(es)
  {
    var e :| e in es && r in ExprReads(k, e);
    ExprReadsAreItems(k, e, r);
  }

  lemma DefaultValueReadsAreItems(k: Kconfig, x: Default, r: Query)
    requires r in ExprReads(k, x.value) || (x.value.Ref? && r in StrReads(x.value.sym))
    requires !IsModules(k, ItemOf(r))
    ensures ItemOf(r) in ExprItems(x.value)
  {
    if r in ExprReads(k, x.value) {
      ExprReadsAreItems(k, x.value, r);
    }
  }

  lemma DefaultReadsAreDeps(k: Kconfig, s: nat, r: Query)
    requires r in DefaultReads(k, s) && !IsModules(k, ItemOf(r))
    ensures ItemOf(r) in Deps(k, S(s))
  {
    var ds := k.Sym(s).defaults;
    if r in ExprsReads(k, Conds(ds)) {
      ExprsReadsAreItems(k, Conds(ds), r);
    } else {
      var x :| x in ds && (r in ExprReads(k, x.value) || (x.value.Ref? && r in StrReads(x.value.sym)));
      var i :| 0 <= i < |ds| && ds[i] == x;
      assert DefaultValues(ds)[i] == x.value;
      DefaultValueReadsAreItems(k, x, r);
    }
  }

  lemma SymbolReadsAreDeps(k: Kconfig, s: nat, r: Query)
    requires ChoiceEdges(k) && !IsModules(k, ItemOf(r))
    ensures r in TypeReads(k, s) && (k.Sym(s).choice.Some? ==> !NeverVisible(k, s)) ==> ItemOf(r) in Deps(k, S(s))
    ensures r in RangeReads(k, s) ==> ItemOf(r) in Deps(k, S(s))
  {
    var d := k.Sym(s);
    if r in TypeReads(k, s) {
      assert d.choice.Some? && r == CVis(d.choice.value);
      assert NeverVisible(k, s) || C(d.choice.value) in Deps(k, S(s));
    }
    if r in RangeReads(k, s) {
      if r in ExprsReads(k, RangeConds(d.ranges)) {
        ExprsReadsAreItems(k, RangeConds(d.ranges), r);
      } else {
        var x :| x in d.ranges && r in StrReads(x.low) + StrReads(x.high);
        assert ItemOf(r) in SymItems(x.low) + SymItems(x.high);
        assert ItemOf(r) in RangeEnds(d.ranges);
      }
    }
  }

  lemma OwnExprReadsAreDeps(k: Kconfig, s: nat, r: Query)
    requires !IsModules(k, ItemOf(r))
    requires r in ExprsReads(k, k.Sym(s).prompts) || r in ExprReads(k, k.Sym(s).weakRevDep)
             || r in ExprReads(k, k.Sym(s).directDep) || r in ExprReads(k, k.Sym(s).revDep)
    ensures ItemOf(r) in Deps(k, S(s))
  {
    var d := k.Sym(s);
    if r in ExprsReads(k, d.prompts) { ExprsReadsAreItems(k, d.prompts, r); }
    else if r in ExprReads(k, d.weakRevDep) { ExprReadsAreItems(k, d.weakRevDep, r); }
    else if r in ExprReads(k, d.directDep) { ExprReadsAreItems(k, d.directDep, r); }
    else { ExprReadsAreItems(k, d.revDep, r); }
  }

  lemma ChoiceReadsAreDeps(k: Kconfig, q: Query, r: Query)
    requires (q.CVis? || q.Sel? || q.CAsg?) && r in Reads(k, q) && !IsModules(k, ItemOf(r))
    ensures r in Own(q) || ItemOf(r) in Deps(k, ItemOf(q))
  {
    var d := k.Ch(q.c);
    if q.CVis? {
      ExprsReadsAreItems(k, d.prompts, r);
    } else if r in ModeReads(k, q.c) {
    } else if r in ExprsReads(k, ChoiceConds(d.defaults)) {
      ExprsReadsAreItems(k, ChoiceConds(d.defaults), r);
    }
  }

  lemma TriReadsAreDeps(k: Kconfig, s: nat, r: Query)
    requires ChoiceEdges(k) && r in Matters(k, TriOf(s)) && !IsModules(k, ItemOf(r))
    ensures r in Own(TriOf(s)) || ItemOf(r) in Deps(k, S(s))
  {
    var d := k.Sym(s);
    if d.choice.Some? {
    } else if r == Vis(s) {
    } else if r in DefaultReads(k, s) {
      DefaultReadsAreDeps(k, s, r);
    } else if r in TypeReads(k, s) {
      SymbolReadsAreDeps(k, s, r);
    } else {
      OwnExprReadsAreDeps(k, s, r);
    }
  }

  /** Everything that matters for a quantity belongs to the same item, or to an item with a
      recorded dependency, or is the value of MODULES (which has no edge: 4298-4302). */
  lemma ReadsAreDeps(k: Kconfig, q: Query, r: Query)
    requires ChoiceEdges(k)
    requires r in Matters(k, q) || (r in Reads(k, q) && ItemOf(q).S? && k.Sym(ItemOf(q).s).choice.None?)
    ensures IsModules(k, ItemOf(r)) || r in Own(q) || ItemOf(r) in Deps(k, ItemOf(q))
  {
    if IsModules(k, ItemOf(r)) { return; }
    match q
    case Vis(s) =>
      if r in TypeReads(k, s) { SymbolReadsAreDeps(k, s, r); } else { OwnExprReadsAreDeps(k, s, r); }
    case TriOf(s) => TriReadsAreDeps(k, s, r);
    case StrOf(s) =>
      if r in Own(q) {
      } else if r in DefaultReads(k, s) { DefaultReadsAreDeps(k, s, r); } else { SymbolReadsAreDeps(k, s, r); }
    case Asg(s) =>
      if r == Vis(s) {
      } else if r in TypeReads(k, s) { SymbolReadsAreDeps(k, s, r); } else { OwnExprReadsAreDeps(k, s, r); }
    case _ => ChoiceReadsAreDeps(k, q, r);
  }

  // ----- Building the graph -----

  /** An edge (x, y) says that y is in the `_dependents` of x. */
  type Edges = set<(Item, Item)>

  function EdgesTo(y: Item, xs: set<Item>): Edges { set x | x in xs :: (x, y) }

  lemma EdgesToUnion(y: Item, a: set<Item>, b: set<Item>)
    ensures EdgesTo(y, a + b) == EdgesTo(y, a) + EdgesTo(y, b)
  {
    forall e ensures e in EdgesTo(y, a + b) <==> e in EdgesTo(y, a) + EdgesTo(y, b) {}
  }

  /** _depend_on() */
  method DependOn(edges: Edges, y: Item, e: Expr) returns (r: Edges)
    ensures r == edges + EdgesTo(y, ExprItems(e))
    decreases e
  {
    match e
    case Ref(x) => r := edges + EdgesTo(y, SymItems(x));
    case Mode(c) => r := edges + EdgesTo(y, {C(c)});
    case And(a, b) =>
      r := DependOn(edges, y, a);
      r := DependOn(r, y, b);
      EdgesToUnion(y, ExprItems(a), ExprItems(b));
    case Or(a, b) =>
      r := DependOn(edges, y, a);
      r := DependOn(r, y, b);
      EdgesToUnion(y, ExprItems(a), ExprItems(b));
    case Not(x) => r := DependOn(edges, y, x);
    case Rel(_, a, b) =>
      r := edges + EdgesTo(y, SymItems(a)) + EdgesTo(y, SymItems(b));
      EdgesToUnion(y, SymItems(a), SymItems(b));
  }

  lemma ExprsItemsNext(es: seq<Expr>, i: nat)
    requires i < |es|
    ensures ExprsItems(es[..i + 1]) == ExprsItems(es[..i]) + ExprItems(es[i])
  {
    assert es[..i + 1] == es[..i] + [es[i]];
  }

  method DependOnAll(edges: Edges, y: Item, es: seq<Expr>) returns (r: Edges)
    ensures r == edges + EdgesTo(y, ExprsItems(es))
  {
    r := edges;
    for i := 0 to |es|
      invariant r == edges + EdgesTo(y, ExprsItems(es[..i]))
    {
      ExprsItemsNext(es, i);
      EdgesToUnion(y, ExprsItems(es[..i]), ExprItems(es[i]));
      r := DependOn(r, y, es[i]);
    }
    assert es[..|es|] == es;
  }

  method DependOnRangeEnds(edges: Edges, y: Item, rs: seq<Range>) returns (r: Edges)
    ensures r == edges + EdgesTo(y, RangeEnds(rs))
  {
    r := edges;
    for i := 0 to |rs|
      invariant r == edges + EdgesTo(y, RangeEnds(rs[..i]))
    {
      assert rs[..i + 1] == rs[..i] + [rs[i]];
      var ends := SymItems(rs[i].low) + SymItems(rs[i].high);
      assert RangeEnds(rs[..i + 1]) == RangeEnds(rs[..i]) + ends;
      EdgesToUnion(y, RangeEnds(rs[..i]), ends);
      EdgesToUnion(y, SymItems(rs[i].low), SymItems(rs[i].high));
      r := DependOn(r, y, Ref(rs[i].low));
      r := DependOn(r, y, Ref(rs[i].high));
    }
    assert rs[..|rs|] == rs;
  }

  method DependSymbol(k: Kconfig, edges: Edges, s: nat) returns (r: Edges)
    ensures r == edges + EdgesTo(S(s), DirectDeps(k, S(s)))
  {
    var d, y := k.Sym(s), S(s);
    r := DependOnAll(edges, y, d.prompts);
    r := DependOnAll(r, y, DefaultValues(d.defaults));
    r := DependOnAll(r, y, Conds(d.defaults));
    r := DependOn(r, y, d.revDep);
    r := DependOn(r, y, d.weakRevDep);
    r := DependOnRangeEnds(r, y, d.ranges);
    r := DependOnAll(r, y, RangeConds(d.ranges));
    r := DependOn(r, y, d.directDep);
  }

  method DependChoice(k: Kconfig, edges: Edges, c: nat) returns (r: Edges)
    ensures r == edges + EdgesTo(C(c), DirectDeps(k, C(c)))
  {
    EdgesToUnion(C(c), ExprsItems(k.Ch(c).prompts), ExprsItems(ChoiceConds(k.Ch(c).defaults)));
    r := DependOnAll(edges, C(c), k.Ch(c).prompts);
    r := DependOnAll(r, C(c), ChoiceConds(k.Ch(c).defaults));
  }

  /** The edges into the first `n` symbols and `m` choices. */
  ghost function EdgesUpTo(k: Kconfig, n: nat, m: nat): Edges {
    (set s: nat, x | 0 <= s < n && x in DirectDeps(k, S(s)) :: (x, S(s)))
    + set c: nat, x | 0 <= c < m && x in DirectDeps(k, C(c)) :: (x, C(c))
  }

  /** Kconfig._build_dep() */
  method BuildDep(k: Kconfig) returns (edges: Edges)
    ensures forall x, y :: (x, y) in edges <==> y in Items(k) && x in DirectDeps(k, y)
  {
    edges := {};
    for s := 0 to |k.symbols|
      invariant edges == EdgesUpTo(k, s, 0)
    {
      edges := DependSymbol(k, edges, s);
    }
    for c := 0 to |k.choices|
      invariant edges == EdgesUpTo(k, |k.symbols|, c)
    {
      edges := DependChoice(k, edges, c);
    }
  }

  /** Kconfig._add_choice_deps() */
  method AddChoiceDeps(k: Kconfig, edges: Edges) returns (r: Edges)
    requires forall x, y :: (x, y) in edges <==> y in Items(k) && x in DirectDeps(k, y)
    ensures forall x, y :: (x, y) in r <==> y in Dependents(k, x)
  {
    r := edges;
    for c := 0 to |k.choices|
      invariant r == edges + set b: nat, s | 0 <= b < c && s in k.Ch(b).syms :: (S(s), C(b))
    {
      r := r + set s | s in k.Ch(c).syms :: (S(s), C(c));
    }
  }
}

/**
  Dependency propagation: the part of finalisation that pushes the conditions of menus,
  `if`s and choices down into the properties of the nodes inside them and collects the
  properties of symbols from their nodes.
 */
module Propagate {
  import opened Model
  import opened MenuTree
  import opened MenuHeap
  import Values
  import RoundTrip
  import Evaluation
  import opened Dependencies

  // ----- Simplification -----

  /** _make_and() */
  function MakeAnd(a: Expr, b: Expr): Expr {
    if a == Y then b else if b == Y then a else if a == N || b == N then N else And(a, b)
  }

  /** _make_or() */
  function MakeOr(a: Expr, b: Expr): Expr {
    if a == N then b else if b == N then a else if a == Y || b == Y then Y else Or(a, b)
  }

  /** Simplification never changes a value. */
  lemma {:induction false} SimplificationKeepsValues(k: Kconfig, u: User, a: Expr, b: Expr, w: World)
    ensures ExprVal(k, u, MakeAnd(a, b), w) == Min(ExprVal(k, u, a, w), ExprVal(k, u, b, w))
    ensures ExprVal(k, u, MakeOr(a, b), w) == Max(ExprVal(k, u, a, w), ExprVal(k, u, b, w))
  {
    assert ExprVal(k, u, Y, w) == 2 && ExprVal(k, u, N, w) == 0;
  }

  // ----- Attributes of menu nodes -----

  datatype Target = Target(sym: nat, cond: Expr)

  /** What a node holds besides its links.  `item` is the number of its symbol or choice;
      `visibility` is the `visible if` of a menu. */
  datatype Attrs = Attrs(
    item: nat,
    dep: Expr,
    prompt: Option<Expr>,
    visibility: Expr,
    defaults: seq<Default>,
    ranges: seq<Range>,
    selects: seq<Target>,
    implies: seq<Target>)

  const Blank := Attrs(0, Y, None, Y, [], [], [], [])

  type Table = map<MenuNode, Attrs>

  function Of(m: Table, n: MenuNode): Attrs { if n in m then m[n] else Blank }

  predicate HasItem(n: MenuNode) { n.kind == SymbolItem || n.kind == ChoiceItem }

  function DefaultsUnder(ds: seq<Default>, dep: Expr): seq<Default> {
    seq(|ds|, i requires 0 <= i < |ds| => Default(ds[i].value, MakeAnd(ds[i].cond, dep)))
  }

  function RangesUnder(rs: seq<Range>, dep: Expr): seq<Range> {
    seq(|rs|, i requires 0 <= i < |rs| => Range(rs[i].low, rs[i].high, MakeAnd(rs[i].cond, dep)))
  }

  function TargetsUnder(ts: seq<Target>, dep: Expr): seq<Target> {
    seq(|ts|, i requires 0 <= i < |ts| => Target(ts[i].sym, MakeAnd(ts[i].cond, dep)))
  }

  /** The new attributes of a node inside a node with condition `base`. */
  function Pushed(n: MenuNode, a: Attrs, base: Expr, visibleIf: Expr): Attrs {
    var dep := MakeAnd(a.dep, base);
    if HasItem(n) then
      Attrs(a.item, dep,
            if a.prompt.Some? then Some(MakeAnd(a.prompt.value, MakeAnd(visibleIf, dep))) else None,
            a.visibility, DefaultsUnder(a.defaults, dep), RangesUnder(a.ranges, dep),
            TargetsUnder(a.selects, dep), TargetsUnder(a.implies, dep))
    else a.(dep := dep, prompt := if a.prompt.Some? then Some(MakeAnd(a.prompt.value, dep)) else None)
  }

  /** The condition a node puts on its children: a choice stands for its mode. */
  function BaseOf(n: MenuNode, a: Attrs): Expr { if n.kind == ChoiceItem then Mode(a.item) else a.dep }

  function VisibleIf(n: MenuNode, a: Attrs, visibleIf: Expr): Expr {
    if n.kind == MenuItem then MakeAnd(visibleIf, a.visibility) else visibleIf
  }

  /** The attributes `m'` of the nodes of `t` come from `m` by pushing conditions down. */
  ghost predicate Finalized(m: Table, m': Table, t: Tree, base: Expr, visibleIf: Expr) {
    t.Node? ==>
      && Of(m', t.n) == Pushed(t.n, Of(m, t.n), base, visibleIf)
      && Finalized(m, m', t.kids, BaseOf(t.n, Of(m', t.n)), VisibleIf(t.n, Of(m, t.n), visibleIf))
      && Finalized(m, m', t.rest, base, visibleIf)
  }

  // ----- What the new conditions mean -----

  /** The conditions of defaults: limited by `dep`, and nothing else changes. */
  ghost predicate DefaultsMean(k: Kconfig, u: User, w: World, ds: seq<Default>, ds': seq<Default>, dep: Tri) {
    && |ds'| == |ds|
    && forall i :: 0 <= i < |ds| ==>
         && ds'[i].value == ds[i].value
         && ExprVal(k, u, ds'[i].cond, w) == Min(ExprVal(k, u, ds[i].cond, w), dep)
  }

  ghost predicate RangesMean(k: Kconfig, u: User, w: World, rs: seq<Range>, rs': seq<Range>, dep: Tri) {
    && |rs'| == |rs|
    && forall i :: 0 <= i < |rs| ==>
         && rs'[i].low == rs[i].low && rs'[i].high == rs[i].high
         && ExprVal(k, u, rs'[i].cond, w) == Min(ExprVal(k, u, rs[i].cond, w), dep)
  }

  ghost predicate TargetsMean(k: Kconfig, u: User, w: World, ts: seq<Target>, ts': seq<Target>, dep: Tri) {
    && |ts'| == |ts|
    && forall i :: 0 <= i < |ts| ==>
         && ts'[i].sym == ts[i].sym
         && ExprVal(k, u, ts'[i].cond, w) == Min(ExprVal(k, u, ts[i].cond, w), dep)
  }

  /** The conditions of a node: the written one, and the limits that apply to it. */
  ghost predicate NodeMeans(k: Kconfig, u: User, w: World, n: MenuNode, a: Attrs, b: Attrs, limit: Tri, visible: Tri) {
    var dep := Min(ExprVal(k, u, a.dep, w), limit);
    && ExprVal(k, u, b.dep, w) == dep
    && a.prompt.Some? == b.prompt.Some?
    && (a.prompt.Some? ==>
          ExprVal(k, u, b.prompt.value, w) ==
            Min(ExprVal(k, u, a.prompt.value, w), if HasItem(n) then Min(visible, dep) else dep))
    && (HasItem(n) ==>
          && DefaultsMean(k, u, w, a.defaults, b.defaults, dep) && RangesMean(k, u, w, a.ranges, b.ranges, dep)
          && TargetsMean(k, u, w, a.selects, b.selects, dep) && TargetsMean(k, u, w, a.implies, b.implies, dep))
  }

  /** The same for a whole tree.  The limits are computed from written conditions only:
      `limit` is the least of the dependencies around, from the innermost choice on, whose
      mode comes instead of its dependency; `visible` is the least of all `visible if`s
      around. */
  ghost predicate Means(k: Kconfig, u: User, w: World, m: Table, m': Table, t: Tree, limit: Tri, visible: Tri) {
    t.Node? ==>
      var a := Of(m, t.n);
      var limit' := if t.n.kind == ChoiceItem then ModeOf(k, u, a.item, w) else Min(ExprVal(k, u, a.dep, w), limit);
      var visible' := if t.n.kind == MenuItem then Min(visible, ExprVal(k, u, a.visibility, w)) else visible;
      && NodeMeans(k, u, w, t.n, a, Of(m', t.n), limit, visible)
      && Means(k, u, w, m, m', t.kids, limit', visible')
      && Means(k, u, w, m, m', t.rest, limit, visible)
  }

  lemma ListsMean(k: Kconfig, u: User, w: World, a: Attrs, dep: Expr)
    ensures var d := ExprVal(k, u, dep, w);
      && DefaultsMean(k, u, w, a.defaults, DefaultsUnder(a.defaults, dep), d)
      && RangesMean(k, u, w, a.ranges, RangesUnder(a.ranges, dep), d)
      && TargetsMean(k, u, w, a.selects, TargetsUnder(a.selects, dep), d)
      && TargetsMean(k, u, w, a.implies, TargetsUnder(a.implies, dep), d)
  {
    forall e ensures ExprVal(k, u, MakeAnd(e, dep), w) == Min(ExprVal(k, u, e, w), ExprVal(k, u, dep, w)) {
      SimplificationKeepsValues(k, u, e, dep, w);
    }
  }

  lemma PushedMeans(k: Kconfig, u: User, w: World, n: MenuNode, a: Attrs, base: Expr, visibleIf: Expr)
    ensures NodeMeans(k, u, w, n, a, Pushed(n, a, base, visibleIf), ExprVal(k, u, base, w), ExprVal(k, u, visibleIf, w))
  {
    var dep := MakeAnd(a.dep, base);
    SimplificationKeepsValues(k, u, a.dep, base, w);
    SimplificationKeepsValues(k, u, visibleIf, dep, w);
    ListsMean(k, u, w, a, dep);
    if a.prompt.Some? {
      SimplificationKeepsValues(k, u, a.prompt.value, dep, w);
      SimplificationKeepsValues(k, u, a.prompt.value, MakeAnd(visibleIf, dep), w);
    }
  }

  /** Propagation preserves meaning: every new condition has the least of the values that
      were written at the node and around it, in every state. */
  lemma {:induction false} FinalizedMeans(k: Kconfig, u: User, w: World, m: Table, m': Table, t: Tree, base: Expr,
                                          visibleIf: Expr)
    requires Finalized(m, m', t, base, visibleIf)
    ensures Means(k, u, w, m, m', t, ExprVal(k, u, base, w), ExprVal(k, u, visibleIf, w))
    decreases t
  {
    if t.Node? {
      var a := Of(m, t.n);
      PushedMeans(k, u, w, t.n, a, base, visibleIf);
      SimplificationKeepsValues(k, u, visibleIf, a.visibility, w);
      FinalizedMeans(k, u, w, m, m', t.kids, BaseOf(t.n, Of(m', t.n)), VisibleIf(t.n, a, visibleIf));
      FinalizedMeans(k, u, w, m, m', t.rest, base, visibleIf);
    }
  }

  // ----- Choices guard their symbols -----

  lemma GuardedAnd(a: Expr, b: Expr, c: nat)
    requires Values.Guarded(a, c) || Values.Guarded(b, c)
    ensures Values.Guarded(MakeAnd(a, b), c)
  {
  }

  /** Nodes inside choice `c`, in no choice further in: prompts and dependencies have it in. */
  ghost predicate GuardedInside(m: Table, t: Tree, c: nat) {
    t.Node? ==>
      && Values.Guarded(Of(m, t.n).dep, c)
      && (Of(m, t.n).prompt.Some? ==> Values.Guarded(Of(m, t.n).prompt.value, c))
      && (t.n.kind != ChoiceItem ==> GuardedInside(m, t.kids, c))
      && GuardedInside(m, t.rest, c)
  }

  lemma {:induction false} ChoiceGuards(m: Table, m': Table, t: Tree, base: Expr, visibleIf: Expr, c: nat)
    requires Finalized(m, m', t, base, visibleIf) && Values.Guarded(base, c)
    ensures GuardedInside(m', t, c)
    decreases t
  {
    if t.Node? {
      var a, dep := Of(m, t.n), MakeAnd(Of(m, t.n).dep, base);
      GuardedAnd(a.dep, base, c);
      GuardedAnd(visibleIf, dep, c);
      if a.prompt.Some? {
        GuardedAnd(a.prompt.value, dep, c);
        GuardedAnd(a.prompt.value, MakeAnd(visibleIf, dep), c);
      }
      if t.n.kind != ChoiceItem { ChoiceGuards(m, m', t.kids, dep, VisibleIf(t.n, a, visibleIf), c); }
      ChoiceGuards(m, m', t.rest, base, visibleIf, c);
    }
  }

  // ----- Properties of symbols -----

  datatype Props = Props(
    directDep: Expr,
    defaults: seq<Default>,
    ranges: seq<Range>,
    selects: seq<Target>,
    implies: seq<Target>,
    revDep: Expr,
    weakRevDep: Expr)

  const NoProps := Props(N, [], [], [], [], N, N)

  type PropTable = map<nat, Props>

  function PropsOf(ps: PropTable, x: nat): Props { if x in ps then ps[x] else NoProps }

  function Rev(p: Props, weak: bool): Expr { if weak then p.weakRevDep else p.revDep }

  /** One select or imply is added to its target. */
  function AddTarget(ps: PropTable, weak: bool, s: nat, t: Target): PropTable {
    var p := PropsOf(ps, t.sym);
    var e := MakeOr(Rev(p, weak), MakeAnd(Ref(Defined(s)), t.cond));
    ps[t.sym := if weak then p.(weakRevDep := e) else p.(revDep := e)]
  }

  function AddTargets(ps: PropTable, weak: bool, s: nat, ts: seq<Target>): PropTable {
    if ts == [] then ps else AddTarget(AddTargets(ps, weak, s, ts[..|ts| - 1]), weak, s, ts[|ts| - 1])
  }

  function AddOwn(ps: PropTable, a: Attrs): PropTable {
    var p := PropsOf(ps, a.item);
    ps[a.item := p.(directDep := MakeOr(p.directDep, a.dep), defaults := p.defaults + a.defaults,
                    ranges := p.ranges + a.ranges, selects := p.selects + a.selects, implies := p.implies + a.implies)]
  }

  function AddNode(ps: PropTable, n: MenuNode, a: Attrs): PropTable {
    if n.kind != SymbolItem then ps
    else AddTargets(AddTargets(AddOwn(ps, a), false, a.item, a.selects), true, a.item, a.implies)
  }

  /** The nodes are added one after the other. */
  function AddNodes(ps: PropTable, m: Table, order: seq<MenuNode>): PropTable {
    if order == [] then ps
    else AddNode(AddNodes(ps, m, order[..|order| - 1]), order[|order| - 1], Of(m, order[|order| - 1]))
  }

  lemma {:induction false} AddNodesConcat(ps: PropTable, m: Table, a: seq<MenuNode>, b: seq<MenuNode>)
    ensures AddNodes(ps, m, a + b) == AddNodes(AddNodes(ps, m, a), m, b)
  {
    if b == [] {
      assert a + b == a;
    } else {
      assert (a + b)[..|a + b| - 1] == a + b[..|b| - 1];
      AddNodesConcat(ps, m, a, b[..|b| - 1]);
    }
  }

  lemma {:induction false} AddNodesSame(ps: PropTable, m: Table, m': Table, order: seq<MenuNode>)
    requires forall n :: n in order ==> Of(m, n) == Of(m', n)
    ensures AddNodes(ps, m, order) == AddNodes(ps, m', order)
  {
    if order != [] {
      assert order[|order| - 1] in order;
      AddNodesSame(ps, m, m', order[..|order| - 1]);
    }
  }

  // ----- What the collected properties are -----

  /** The selects (implies) of `x` in one node: selector and condition. */
  function TermsIn(s: nat, ts: seq<Target>, x: nat): seq<Expr> {
    if ts == [] then []
    else
      TermsIn(s, ts[..|ts| - 1], x)
      + if ts[|ts| - 1].sym == x then [And(Ref(Defined(s)), ts[|ts| - 1].cond)] else []
  }

  function TermsOf(n: MenuNode, a: Attrs, weak: bool, x: nat): seq<Expr> {
    if n.kind != SymbolItem then [] else TermsIn(a.item, if weak then a.implies else a.selects, x)
  }

  /** All selects (implies) of `x`. */
  function Terms(m: Table, order: seq<MenuNode>, weak: bool, x: nat): seq<Expr> {
    if order == [] then []
    else Terms(m, order[..|order| - 1], weak, x) + TermsOf(order[|order| - 1], Of(m, order[|order| - 1]), weak, x)
  }

  predicate Defines(m: Table, n: MenuNode, x: nat) { n.kind == SymbolItem && Of(m, n).item == x }

  /** The dependencies of the nodes of `x`. */
  function DepsOf(m: Table, order: seq<MenuNode>, x: nat): seq<Expr> {
    if order == [] then []
    else
      var last := order[|order| - 1];
      DepsOf(m, order[..|order| - 1], x) + if Defines(m, last, x) then [Of(m, last).dep] else []
  }

  /** The defaults of the nodes of `x`, in definition order. */
  function DefaultsOf(m: Table, order: seq<MenuNode>, x: nat): seq<Default> {
    if order == [] then []
    else
      var last := order[|order| - 1];
      DefaultsOf(m, order[..|order| - 1], x) + if Defines(m, last, x) then Of(m, last).defaults else []
  }

  /** The ranges of the nodes of `x`, in definition order. */
  function RangesOf(m: Table, order: seq<MenuNode>, x: nat): seq<Range> {
    if order == [] then []
    else
      var last := order[|order| - 1];
      RangesOf(m, order[..|order| - 1], x) + if Defines(m, last, x) then Of(m, last).ranges else []
  }

  /** The selects (implies) that the nodes of `x` have, in definition order. */
  function TargetsOf(m: Table, order: seq<MenuNode>, weak: bool, x: nat): seq<Target> {
    if order == [] then []
    else
      var last := order[|order| - 1];
      TargetsOf(m, order[..|order| - 1], weak, x)
      + if !Defines(m, last, x) then [] else if weak then Of(m, last).implies else Of(m, last).selects
  }

  /** The prompt conditions of the nodes of `x`, in definition order. */
  function PromptsOf(m: Table, order: seq<MenuNode>, x: nat): seq<Expr> {
    if order == [] then []
    else
      var last := order[|order| - 1];
      PromptsOf(m, order[..|order| - 1], x)
      + if Defines(m, last, x) && Of(m, last).prompt.Some? then [Of(m, last).prompt.value] else []
  }

  lemma {:induction false} MaxValConcat(k: Kconfig, u: User, a: seq<Expr>, b: seq<Expr>, w: World)
    ensures MaxVal(k, u, a + b, w) == Max(MaxVal(k, u, a, w), MaxVal(k, u, b, w))
  {
    if b == [] {
      assert a + b == a;
    } else {
      assert (a + b)[..|a + b| - 1] == a + b[..|b| - 1];
      MaxValConcat(k, u, a, b[..|b| - 1], w);
    }
  }

  /** What adding the selects (implies) of one node does to symbol `x`. */
  lemma {:induction false} AddTargetsMeans(k: Kconfig, u: User, w: World, ps: PropTable, weak: bool, s: nat,
                                           ts: seq<Target>, x: nat)
    ensures var p, p' := PropsOf(ps, x), PropsOf(AddTargets(ps, weak, s, ts), x);
      && ExprVal(k, u, Rev(p', weak), w) == Max(ExprVal(k, u, Rev(p, weak), w), MaxVal(k, u, TermsIn(s, ts, x), w))
      && Rev(p', !weak) == Rev(p, !weak)
      && p'.(revDep := p.revDep, weakRevDep := p.weakRevDep) == p
  {
    if ts != [] {
      var init, t := ts[..|ts| - 1], ts[|ts| - 1];
      AddTargetsMeans(k, u, w, ps, weak, s, init, x);
      if t.sym == x {
        var p := PropsOf(AddTargets(ps, weak, s, init), x);
        SimplificationKeepsValues(k, u, Rev(p, weak), MakeAnd(Ref(Defined(s)), t.cond), w);
        SimplificationKeepsValues(k, u, Ref(Defined(s)), t.cond, w);
        MaxValConcat(k, u, TermsIn(s, init, x), [And(Ref(Defined(s)), t.cond)], w);
        OneTerm(k, u, And(Ref(Defined(s)), t.cond), w);
      } else {
        assert TermsIn(s, ts, x) == TermsIn(s, init, x);
      }
    }
  }

  lemma OneTerm(k: Kconfig, u: User, e: Expr, w: World)
    ensures MaxVal(k, u, [e], w) == ExprVal(k, u, e, w)
  {
    assert [e][..0] == [];
  }

  /** The reverse dependency of a symbol is the largest, over all selects of it, of the
      smaller of the selector and the condition; likewise for implies.  The direct
      dependency is the largest of the dependencies of its nodes.  Defaults, ranges, selects
      and implies are those of its nodes, one after the other. */
  ghost predicate Collected(k: Kconfig, u: User, w: World, m: Table, order: seq<MenuNode>, x: nat, p: Props) {
    && ExprVal(k, u, p.revDep, w) == MaxVal(k, u, Terms(m, order, false, x), w)
    && ExprVal(k, u, p.weakRevDep, w) == MaxVal(k, u, Terms(m, order, true, x), w)
    && ExprVal(k, u, p.directDep, w) == MaxVal(k, u, DepsOf(m, order, x), w)
    && p.defaults == DefaultsOf(m, order, x)
    && p.ranges == RangesOf(m, order, x)
    && p.selects == TargetsOf(m, order, false, x)
    && p.implies == TargetsOf(m, order, true, x)
  }

  lemma AddOwnMeans(k: Kconfig, u: User, w: World, ps: PropTable, a: Attrs, x: nat)
    ensures var p, p' := PropsOf(ps, x), PropsOf(AddOwn(ps, a), x);
      && p'.revDep == p.revDep && p'.weakRevDep == p.weakRevDep
      && ExprVal(k, u, p'.directDep, w) ==
           Max(ExprVal(k, u, p.directDep, w), if a.item == x then ExprVal(k, u, a.dep, w) else 0)
      && p'.defaults == p.defaults + (if a.item == x then a.defaults else [])
      && p'.ranges == p.ranges + (if a.item == x then a.ranges else [])
      && p'.selects == p.selects + (if a.item == x then a.selects else [])
      && p'.implies == p.implies + if a.item == x then a.implies else []
  {
    SimplificationKeepsValues(k, u, PropsOf(ps, x).directDep, a.dep, w);
  }

  /** What was collected is right, for every symbol in every state. */
  lemma {:induction false} CollectedRight(k: Kconfig, u: User, w: World, m: Table, order: seq<MenuNode>, x: nat)
    ensures Collected(k, u, w, m, order, x, PropsOf(AddNodes(map[], m, order), x))
  {
    if order != [] {
      var init, last := order[..|order| - 1], order[|order| - 1];
      var ps, a := AddNodes(map[], m, init), Of(m, last);
      CollectedRight(k, u, w, m, init, x);
      MaxValConcat(k, u, Terms(m, init, false, x), TermsOf(last, a, false, x), w);
      MaxValConcat(k, u, Terms(m, init, true, x), TermsOf(last, a, true, x), w);
      MaxValConcat(k, u, DepsOf(m, init, x), if Defines(m, last, x) then [a.dep] else [], w);
      OneTerm(k, u, a.dep, w);
      if last.kind == SymbolItem {
        var own := AddOwn(ps, a);
        var selected := AddTargets(own, false, a.item, a.selects);
        AddOwnMeans(k, u, w, ps, a, x);
        AddTargetsMeans(k, u, w, own, false, a.item, a.selects, x);
        AddTargetsMeans(k, u, w, selected, true, a.item, a.implies, x);
      }
    }
  }

  // ----- Properties of choices -----

  /** What _finalize_node() adds to a choice, once the nodes below are done. */
  datatype ChoiceProps = ChoiceProps(directDep: Expr, defaults: seq<Default>)

  type ChoiceTable = map<nat, ChoiceProps>

  function ChoiceOf(cs: ChoiceTable, c: nat): ChoiceProps { if c in cs then cs[c] else ChoiceProps(N, []) }

  function AddChoice(cs: ChoiceTable, n: MenuNode, a: Attrs): ChoiceTable {
    if n.kind != ChoiceItem then cs
    else
      var p := ChoiceOf(cs, a.item);
      cs[a.item := ChoiceProps(MakeOr(p.directDep, a.dep), p.defaults + a.defaults)]
  }

  function AddChoices(cs: ChoiceTable, m: Table, order: seq<MenuNode>): ChoiceTable {
    if order == [] then cs
    else AddChoice(AddChoices(cs, m, order[..|order| - 1]), order[|order| - 1], Of(m, order[|order| - 1]))
  }

  /** The nodes of a tree, each after the nodes below it. */
  ghost function Postorder(t: Tree): seq<MenuNode> {
    if t.Nil? then [] else Postorder(t.kids) + [t.n] + Postorder(t.rest)
  }

  lemma {:induction false} PostorderNodes(t: Tree)
    ensures forall n :: n in Postorder(t) <==> n in Nodes(t)
  {
    if t.Node? {
      PostorderNodes(t.kids);
      PostorderNodes(t.rest);
    }
  }

  lemma {:induction false} AddChoicesConcat(cs: ChoiceTable, m: Table, a: seq<MenuNode>, b: seq<MenuNode>)
    ensures AddChoices(cs, m, a + b) == AddChoices(AddChoices(cs, m, a), m, b)
  {
    if b == [] {
      assert a + b == a;
    } else {
      assert (a + b)[..|a + b| - 1] == a + b[..|b| - 1];
      AddChoicesConcat(cs, m, a, b[..|b| - 1]);
    }
  }

  lemma {:induction false} AddChoicesSame(cs: ChoiceTable, m: Table, m': Table, order: seq<MenuNode>)
    requires forall n :: n in order ==> Of(m, n) == Of(m', n)
    ensures AddChoices(cs, m, order) == AddChoices(cs, m', order)
  {
    if order != [] {
      assert order[|order| - 1] in order;
      AddChoicesSame(cs, m, m', order[..|order| - 1]);
    }
  }

  predicate DefinesChoice(m: Table, n: MenuNode, c: nat) { n.kind == ChoiceItem && Of(m, n).item == c }

  /** The dependencies of the nodes of choice `c`, and their defaults. */
  function ChoiceDeps(m: Table, order: seq<MenuNode>, c: nat): seq<Expr> {
    if order == [] then []
    else
      var last := order[|order| - 1];
      ChoiceDeps(m, order[..|order| - 1], c) + if DefinesChoice(m, last, c) then [Of(m, last).dep] else []
  }

  function ChoiceDefaults(m: Table, order: seq<MenuNode>, c: nat): seq<Default> {
    if order == [] then []
    else
      var last := order[|order| - 1];
      ChoiceDefaults(m, order[..|order| - 1], c) + if DefinesChoice(m, last, c) then Of(m, last).defaults else []
  }

  /** The direct dependency of a choice is the largest of the dependencies of its nodes, and
      its defaults are those of its nodes, inner nodes first. */
  lemma {:induction false} ChoicesRight(k: Kconfig, u: User, w: World, m: Table, order: seq<MenuNode>, c: nat)
    ensures var p := ChoiceOf(AddChoices(map[], m, order), c);
      && ExprVal(k, u, p.directDep, w) == MaxVal(k, u, ChoiceDeps(m, order, c), w)
      && p.defaults == ChoiceDefaults(m, order, c)
  {
    if order != [] {
      var init, last := order[..|order| - 1], order[|order| - 1];
      ChoicesRight(k, u, w, m, init, c);
      MaxValConcat(k, u, ChoiceDeps(m, init, c), if DefinesChoice(m, last, c) then [Of(m, last).dep] else [], w);
      OneTerm(k, u, Of(m, last).dep, w);
      SimplificationKeepsValues(k, u, ChoiceOf(AddChoices(map[], m, init), c).directDep, Of(m, last).dep, w);
    }
  }

  // ----- Prompts need the direct dependencies -----

  lemma {:induction false} PromptHasNode(m: Table, order: seq<MenuNode>, x: nat, p: Expr)
    requires p in PromptsOf(m, order, x)
    ensures exists n :: n in order && Defines(m, n, x) && Of(m, n).prompt == Some(p)
  {
    var init, last := order[..|order| - 1], order[|order| - 1];
    if p in PromptsOf(m, init, x) {
      PromptHasNode(m, init, x, p);
      var n :| n in init && Defines(m, n, x) && Of(m, n).prompt == Some(p);
      assert n in order;
    } else {
      assert last in order;
    }
  }

  lemma {:induction false} DepBelowMax(k: Kconfig, u: User, w: World, m: Table, order: seq<MenuNode>, x: nat,
                                       n: MenuNode)
    requires n in order && Defines(m, n, x)
    ensures ExprVal(k, u, Of(m, n).dep, w) <= MaxVal(k, u, DepsOf(m, order, x), w)
  {
    var init, last := order[..|order| - 1], order[|order| - 1];
    MaxValConcat(k, u, DepsOf(m, init, x), if Defines(m, last, x) then [Of(m, last).dep] else [], w);
    if n == last {
      OneTerm(k, u, Of(m, n).dep, w);
    } else {
      assert n in init;
      DepBelowMax(k, u, w, m, init, x, n);
    }
  }

  lemma {:induction false} NodePromptBelowDep(k: Kconfig, u: User, w: World, m: Table, m': Table, t: Tree, base: Expr,
                                              visibleIf: Expr, n: MenuNode)
    requires Finalized(m, m', t, base, visibleIf) && n in Preorder(t) && HasItem(n) && Of(m', n).prompt.Some?
    ensures ExprVal(k, u, Of(m', n).prompt.value, w) <= ExprVal(k, u, Of(m', n).dep, w)
    decreases t
  {
    if n == t.n {
      PushedMeans(k, u, w, n, Of(m, n), base, visibleIf);
    } else if n in Preorder(t.kids) {
      NodePromptBelowDep(k, u, w, m, m', t.kids, BaseOf(t.n, Of(m', t.n)), VisibleIf(t.n, Of(m, t.n), visibleIf), n);
    } else {
      NodePromptBelowDep(k, u, w, m, m', t.rest, base, visibleIf, n);
    }
  }

  /** A prompt of a symbol is on only when the symbol's direct dependency is: what the
      minimal configuration relies on. */
  lemma PromptsEntailDirectDep(k: Kconfig, m: Table, m': Table, t: Tree, base: Expr, visibleIf: Expr, x: nat, p: Expr)
    requires Finalized(m, m', t, base, visibleIf) && p in PromptsOf(m', Preorder(t), x)
    ensures RoundTrip.Entails(k, p, PropsOf(AddNodes(map[], m', Preorder(t)), x).directDep)
  {
    var order := Preorder(t);
    PromptHasNode(m', order, x, p);
    var n :| n in order && Defines(m', n, x) && Of(m', n).prompt == Some(p);
    forall u: User, w: World
      ensures ExprVal(k, u, p, w) <= ExprVal(k, u, PropsOf(AddNodes(map[], m', order), x).directDep, w)
    {
      NodePromptBelowDep(k, u, w, m, m', t, base, visibleIf, n);
      DepBelowMax(k, u, w, m', order, x, n);
      CollectedRight(k, u, w, m', order, x);
    }
  }

  // ----- Choice symbols depend on their choice -----

  /** Choice symbols have prompts only inside their choice, in no choice further in;
      `inside` is the innermost choice around `t`. */
  ghost predicate PromptsInChoice(k: Kconfig, m: Table, t: Tree, inside: Option<nat>) {
    t.Node? ==>
      var a := Of(m, t.n);
      && (t.n.kind == SymbolItem && a.prompt.Some? && k.Sym(a.item).choice.Some? ==> k.Sym(a.item).choice == inside)
      && PromptsInChoice(k, m, t.kids, if t.n.kind == ChoiceItem then Some(a.item) else inside)
      && PromptsInChoice(k, m, t.rest, inside)
  }

  lemma {:induction false} PromptGuarded(k: Kconfig, m: Table, m': Table, t: Tree, base: Expr, visibleIf: Expr,
                                         inside: Option<nat>, n: MenuNode)
    requires Finalized(m, m', t, base, visibleIf) && PromptsInChoice(k, m, t, inside)
    requires inside.Some? ==> Values.Guarded(base, inside.value)
    requires n in Preorder(t) && n.kind == SymbolItem && Of(m', n).prompt.Some? && k.Sym(Of(m', n).item).choice.Some?
    ensures Values.Guarded(Of(m', n).prompt.value, k.Sym(Of(m', n).item).choice.value)
    decreases t
  {
    var a, b := Of(m, t.n), Of(m', t.n);
    if inside.Some? { GuardedAnd(a.dep, base, inside.value); }
    if n == t.n {
      GuardedAnd(visibleIf, b.dep, inside.value);
      GuardedAnd(a.prompt.value, MakeAnd(visibleIf, b.dep), inside.value);
    } else if n in Preorder(t.kids) {
      PromptGuarded(k, m, m', t.kids, BaseOf(t.n, b), VisibleIf(t.n, a, visibleIf),
                    if t.n.kind == ChoiceItem then Some(a.item) else inside, n);
    } else {
      PromptGuarded(k, m, m', t.rest, base, visibleIf, inside, n);
    }
  }

  lemma {:induction false} ConjunctIsItem(e: Expr, c: nat)
    requires Values.Conjunct(e, c)
    ensures C(c) in ExprItems(e)
  {
    if e.And? {
      if Values.Conjunct(e.left, c) { ConjunctIsItem(e.left, c); } else { ConjunctIsItem(e.right, c); }
    }
  }

  /** Finalisation makes every choice symbol a dependent of its choice, except those whose
      prompts have come down to n, which can never be visible. */
  lemma FinalisationGivesChoiceEdges(k: Kconfig, m: Table, m': Table, t: Tree, base: Expr, visibleIf: Expr)
    requires Finalized(m, m', t, base, visibleIf) && PromptsInChoice(k, m, t, None)
    requires forall x: nat :: k.Sym(x).prompts == PromptsOf(m', Preorder(t), x)
    ensures ChoiceEdges(k)
    ensures forall x: nat, p :: k.Sym(x).choice.Some? && p in k.Sym(x).prompts ==>
      Values.Guarded(p, k.Sym(x).choice.value)
  {
    forall x: nat, p | k.Sym(x).choice.Some? && p in k.Sym(x).prompts
      ensures Values.Guarded(p, k.Sym(x).choice.value)
    {
      PromptHasNode(m', Preorder(t), x, p);
      var n :| n in Preorder(t) && Defines(m', n, x) && Of(m', n).prompt == Some(p);
      PromptGuarded(k, m, m', t, base, visibleIf, None, n);
    }
    forall x: nat | k.Sym(x).choice.Some? && !Evaluation.NeverVisible(k, x)
      ensures C(k.Sym(x).choice.value) in Deps(k, S(x))
    {
      var p :| p in k.Sym(x).prompts && p != N;
      ConjunctIsItem(p, k.Sym(x).choice.value);
    }
  }

  // ----- The loops -----

  ghost predicate SameOn(m: Table, m': Table, ns: set<MenuNode>) { forall n :: n in ns ==> Of(m', n) == Of(m, n) }

  ghost predicate SameOff(m: Table, m': Table, ns: set<MenuNode>) { forall n :: n !in ns ==> Of(m', n) == Of(m, n) }

  /** The nodes of the top level. */
  ghost function Tops(t: Tree): set<MenuNode> { if t.Nil? then {} else {t.n} + Tops(t.rest) }

  lemma {:induction false} TopsAreNodes(t: Tree)
    ensures Tops(t) <= Nodes(t)
  {
    if t.Node? { TopsAreNodes(t.rest); }
  }

  /** After _propagate_deps(): the top level of `t` is done. */
  ghost predicate TopsPushed(m: Table, m': Table, t: Tree, base: Expr, visibleIf: Expr) {
    t.Node? ==>
      && Of(m', t.n) == Pushed(t.n, Of(m, t.n), base, visibleIf)
      && TopsPushed(m, m', t.rest, base, visibleIf)
  }

  lemma {:induction false} TopsPushedFrame(m: Table, m': Table, m'': Table, t: Tree, base: Expr, visibleIf: Expr)
    requires TopsPushed(m, m', t, base, visibleIf) && SameOn(m', m'', Tops(t))
    ensures TopsPushed(m, m'', t, base, visibleIf)
  {
    if t.Node? { TopsPushedFrame(m, m', m'', t.rest, base, visibleIf); }
  }

  /** Once the levels below are done too. */
  ghost predicate Below(m: Table, m': Table, t: Tree, visibleIf: Expr) {
    t.Node? ==>
      && Finalized(m, m', t.kids, BaseOf(t.n, Of(m', t.n)), VisibleIf(t.n, Of(m', t.n), visibleIf))
      && Below(m, m', t.rest, visibleIf)
  }

  lemma {:induction false} FinalizedFrame(m: Table, m0: Table, m': Table, m1: Table, t: Tree, base: Expr,
                                          visibleIf: Expr)
    requires Finalized(m, m', t, base, visibleIf) && SameOn(m, m0, Nodes(t)) && SameOn(m', m1, Nodes(t))
    ensures Finalized(m0, m1, t, base, visibleIf)
    decreases t
  {
    if t.Node? {
      FinalizedFrame(m, m0, m', m1, t.kids, BaseOf(t.n, Of(m', t.n)), VisibleIf(t.n, Of(m, t.n), visibleIf));
      FinalizedFrame(m, m0, m', m1, t.rest, base, visibleIf);
    }
  }

  lemma {:induction false} BelowFrame(m: Table, m0: Table, m': Table, m1: Table, t: Tree, visibleIf: Expr)
    requires Below(m, m', t, visibleIf) && SameOn(m, m0, Nodes(t) - Tops(t)) && SameOn(m', m1, Nodes(t)) && Distinct(t)
    ensures Below(m0, m1, t, visibleIf)
  {
    if t.Node? {
      TopsAreNodes(t.rest);
      FinalizedFrame(m, m0, m', m1, t.kids, BaseOf(t.n, Of(m', t.n)), VisibleIf(t.n, Of(m', t.n), visibleIf));
      BelowFrame(m, m0, m', m1, t.rest, visibleIf);
    }
  }

  /** A level that is done, and what is below it. */
  lemma {:induction false} LevelsMakeTree(m: Table, m': Table, t: Tree, base: Expr, visibleIf: Expr)
    requires TopsPushed(m, m', t, base, visibleIf) && Below(m, m', t, visibleIf)
    ensures Finalized(m, m', t, base, visibleIf)
  {
    if t.Node? { LevelsMakeTree(m, m', t.rest, base, visibleIf); }
  }

  class Finalizer {
    var attrs: Table
    var props: PropTable
    var choices: ChoiceTable

    constructor (attrs: Table)
      ensures this.attrs == attrs && props == map[] && choices == map[]
    {
      this.attrs, props, choices := attrs, map[], map[];
    }

    /** _propagate_deps() */
    method PropagateDeps(base: Expr, visibleIf: Expr, kids: Tree)
      requires Distinct(kids)
      modifies this`attrs
      ensures TopsPushed(old(attrs), attrs, kids, base, visibleIf) && SameOff(old(attrs), attrs, Tops(kids))
    {
      var cur := kids;
      ghost var done := Nil;
      while cur.Node?
        invariant Append(done, cur) == kids && Distinct(done) && Distinct(cur) && Nodes(done) !! Nodes(cur)
        invariant TopsPushed(old(attrs), attrs, done, base, visibleIf) && SameOff(old(attrs), attrs, Tops(done))
        decreases cur
      {
        ghost var was := attrs;
        attrs := attrs[cur.n := Pushed(cur.n, Of(attrs, cur.n), base, visibleIf)];
        ghost var cell := Node(cur.n, cur.kids, Nil);
        PushedOne(old(attrs), was, attrs, done, cur, base, visibleIf);
        done, cur := Append(done, cell), cur.rest;
      }
      AppendNil(done);
    }

    /** _add_props_to_sym() */
    method AddPropsToSym(n: MenuNode)
      requires n.kind == SymbolItem
      modifies this`props
      ensures props == AddNode(old(props), n, Of(attrs, n))
    {
      var a := Of(attrs, n);
      props := AddOwn(props, a);
      ghost var own := props;
      for i := 0 to |a.selects|
        invariant props == AddTargets(own, false, a.item, a.selects[..i])
      {
        assert a.selects[..i + 1][..i] == a.selects[..i];
        props := AddTarget(props, false, a.item, a.selects[i]);
      }
      assert a.selects[..|a.selects|] == a.selects;
      ghost var selected := props;
      for i := 0 to |a.implies|
        invariant props == AddTargets(selected, true, a.item, a.implies[..i])
      {
        assert a.implies[..i + 1][..i] == a.implies[..i];
        props := AddTarget(props, true, a.item, a.implies[i]);
      }
      assert a.implies[..|a.implies|] == a.implies;
    }

    /** _finalize_node(), as far as it concerns properties, for the siblings in `t`. */
    method FinalizeSiblings(t: Tree, visibleIf: Expr)
      requires Distinct(t) && Parsed(t)
      modifies this
      ensures Below(old(attrs), attrs, t, visibleIf)
      ensures SameOff(old(attrs), attrs, Nodes(t) - Tops(t))
      ensures props == AddNodes(old(props), attrs, Preorder(t))
      ensures choices == AddChoices(old(choices), attrs, Postorder(t))
      decreases t, 0
    {
      if t.Nil? {
        return;
      }
      ghost var p0, c0 := props, choices;
      FinalizeOne(t.n, t.kids, visibleIf);
      ghost var m1 := attrs;
      FinalizeSiblings(t.rest, visibleIf);
      LevelsJoin(old(attrs), m1, attrs, t, visibleIf);
      CollectedJoin(p0, c0, m1, attrs, t);
    }

    /** The same for one node. */
    method FinalizeOne(n: MenuNode, kids: Tree, visibleIf: Expr)
      requires Distinct(kids) && Parsed(kids) && n !in Nodes(kids) && (n.kind == SymbolItem ==> kids.Nil?)
      modifies this
      ensures Finalized(old(attrs), attrs, kids, BaseOf(n, Of(attrs, n)), VisibleIf(n, Of(attrs, n), visibleIf))
      ensures SameOff(old(attrs), attrs, Nodes(kids))
      ensures props == AddNodes(old(props), attrs, [n] + Preorder(kids))
      ensures choices == AddChoices(old(choices), attrs, Postorder(kids) + [n])
      decreases kids, 2
    {
      FinalizeBelow(n, kids, visibleIf);
      ghost var cs := choices;
      choices := AddChoice(choices, n, Of(attrs, n));
      AddChoicesConcat(old(choices), attrs, Postorder(kids), [n]);
      assert [n][..0] == [] && AddChoices(cs, attrs, [n]) == AddChoice(cs, n, Of(attrs, n));
    }

    /** Everything but what is added to a choice at the end. */
    method FinalizeBelow(n: MenuNode, kids: Tree, visibleIf: Expr)
      requires Distinct(kids) && Parsed(kids) && n !in Nodes(kids) && (n.kind == SymbolItem ==> kids.Nil?)
      modifies this
      ensures Finalized(old(attrs), attrs, kids, BaseOf(n, Of(attrs, n)), VisibleIf(n, Of(attrs, n), visibleIf))
      ensures SameOff(old(attrs), attrs, Nodes(kids))
      ensures props == AddNodes(old(props), attrs, [n] + Preorder(kids))
      ensures choices == AddChoices(old(choices), attrs, Postorder(kids))
      decreases kids, 1
    {
      ghost var order := [n];
      assert order[..0] == [];
      if n.kind == SymbolItem {
        AddPropsToSym(n);
        assert [n] + Preorder(kids) == order;
      } else if kids.Node? {
        var visible, base := VisibleIf(n, Of(attrs, n), visibleIf), BaseOf(n, Of(attrs, n));
        PropagateDeps(base, visible, kids);
        ghost var m1 := attrs;
        TopsAreNodes(kids);
        FinalizeSiblings(kids, visible);
        TopsPushedFrame(old(attrs), m1, attrs, kids, base, visible);
        BelowFrame(m1, old(attrs), attrs, attrs, kids, visible);
        LevelsMakeTree(old(attrs), attrs, kids, base, visible);
        AddNodesConcat(old(props), attrs, order, Preorder(kids));
      }
    }
  }

  lemma {:induction false} TopsOfAppend(a: Tree, b: Tree)
    ensures Tops(Append(a, b)) == Tops(a) + Tops(b)
  {
    if a.Node? { TopsOfAppend(a.rest, b); }
  }

  lemma {:induction false} PushedAppend(m: Table, m': Table, a: Tree, b: Tree, base: Expr, visibleIf: Expr)
    requires TopsPushed(m, m', a, base, visibleIf) && TopsPushed(m, m', b, base, visibleIf)
    ensures TopsPushed(m, m', Append(a, b), base, visibleIf)
  {
    if a.Node? { PushedAppend(m, m', a.rest, b, base, visibleIf); }
  }

  lemma {:induction false} PreorderNodes(t: Tree)
    ensures forall n :: n in Preorder(t) <==> n in Nodes(t)
  {
    if t.Node? {
      PreorderNodes(t.kids);
      PreorderNodes(t.rest);
    }
  }

  /** What the first node gave and what the rest gave, with the final attributes. */
  lemma CollectedJoin(p0: PropTable, c0: ChoiceTable, m1: Table, m: Table, t: Tree)
    requires t.Node? && SameOff(m1, m, Nodes(t.rest) - Tops(t.rest)) && Distinct(t)
    requires forall n :: n in Tops(t.rest) ==> n !in Nodes(t.kids)
    ensures AddNodes(AddNodes(p0, m1, [t.n] + Preorder(t.kids)), m, Preorder(t.rest)) == AddNodes(p0, m, Preorder(t))
    ensures AddChoices(AddChoices(c0, m1, Postorder(t.kids) + [t.n]), m, Postorder(t.rest))
            == AddChoices(c0, m, Postorder(t))
  {
    PreorderNodes(t.kids);
    PostorderNodes(t.kids);
    AddNodesSame(p0, m1, m, [t.n] + Preorder(t.kids));
    AddNodesConcat(p0, m, [t.n] + Preorder(t.kids), Preorder(t.rest));
    AddChoicesSame(c0, m1, m, Postorder(t.kids) + [t.n]);
    AddChoicesConcat(c0, m, Postorder(t.kids) + [t.n], Postorder(t.rest));
  }

  /** The first node and what is below it is done, then the rest. */
  lemma {:induction false} LevelsJoin(m0: Table, m1: Table, m2: Table, t: Tree, visibleIf: Expr)
    requires t.Node? && Distinct(t)
    requires Finalized(m0, m1, t.kids, BaseOf(t.n, Of(m1, t.n)), VisibleIf(t.n, Of(m1, t.n), visibleIf))
    requires SameOff(m0, m1, Nodes(t.kids)) && SameOff(m1, m2, Nodes(t.rest) - Tops(t.rest))
    requires Below(m1, m2, t.rest, visibleIf)
    ensures Below(m0, m2, t, visibleIf) && SameOff(m0, m2, Nodes(t) - Tops(t))
    ensures forall n :: n in Tops(t.rest) ==> n !in Nodes(t.kids)
  {
    TopsAreNodes(t.rest);
    FinalizedFrame(m0, m0, m1, m2, t.kids, BaseOf(t.n, Of(m1, t.n)), VisibleIf(t.n, Of(m1, t.n), visibleIf));
    BelowFrame(m1, m0, m2, m2, t.rest, visibleIf);
  }

  /** One more node of the level is done. */
  lemma {:induction false} PushedOne(m0: Table, m: Table, m': Table, done: Tree, cur: Tree, base: Expr, visibleIf: Expr)
    requires cur.Node? && Distinct(done) && Distinct(cur) && Nodes(done) !! Nodes(cur)
    requires TopsPushed(m0, m, done, base, visibleIf) && SameOff(m0, m, Tops(done))
    requires m' == m[cur.n := Pushed(cur.n, Of(m, cur.n), base, visibleIf)]
    ensures var done' := Append(done, Node(cur.n, cur.kids, Nil));
      && Append(done', cur.rest) == Append(done, cur)
      && Distinct(done') && Nodes(done') !! Nodes(cur.rest)
      && TopsPushed(m0, m', done', base, visibleIf) && SameOff(m0, m', Tops(done'))
  {
    var cell := Node(cur.n, cur.kids, Nil);
    TopsAreNodes(done);
    TopsPushedFrame(m0, m, m', done, base, visibleIf);
    AppendSplits(done, cell);
    AppendNested(done, cur.n, cur.kids, cur.rest);
    assert TopsPushed(m0, m', cell, base, visibleIf) by { assert cur.n !in Tops(done); }
    TopsOfAppend(done, cell);
    PushedAppend(m0, m', done, cell, base, visibleIf);
  }
}

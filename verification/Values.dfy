/** What the values of a configuration are guaranteed to satisfy in every user state. */
module Values {
  import opened Model
  import opened Evaluation
  import opened Engine

  // ----- Choices: at most one symbol is y -----

  /** The mode of choice `c` is a conjunct of the expression. */
  predicate Conjunct(e: Expr, c: nat) {
    match e
    case Mode(x) => x == c
    case And(l, r) => Conjunct(l, c) || Conjunct(r, c)
    case _ => false
  }

  /** The expression is a conjunction that includes the mode of choice `c`, or it is n. */
  predicate Guarded(e: Expr, c: nat) { e == N || Conjunct(e, c) }

  /** Choice symbols have prompts only inside their choice, so that every prompt condition
      has the choice propagated into it; choices and their symbols are bool or tristate. */
  ghost predicate ProperChoice(k: Kconfig, c: nat) {
    && BoolTristate(k.Ch(c).origType)
    && forall s :: s in k.Ch(c).syms ==>
         BoolTristate(k.Sym(s).origType) && forall p :: p in k.Sym(s).prompts ==> Guarded(p, c)
  }

  lemma {:induction false} GuardedBelowMode(k: Kconfig, u: User, e: Expr, c: nat, w: World)
    requires Guarded(e, c)
    ensures ExprVal(k, u, e, w) <= ModeOf(k, u, c, w)
  {
    if e.And? {
      if Conjunct(e.left, c) { GuardedBelowMode(k, u, e.left, c, w); } else { GuardedBelowMode(k, u, e.right, c, w); }
    }
  }

  lemma {:induction false} MaxBelowMode(k: Kconfig, u: User, es: seq<Expr>, c: nat, w: World)
    requires forall e :: e in es ==> Guarded(e, c)
    ensures MaxVal(k, u, es, w) <= ModeOf(k, u, c, w)
  {
    if es != [] {
      MaxBelowMode(k, u, es[..|es| - 1], c, w);
      GuardedBelowMode(k, u, es[|es| - 1], c, w);
    }
  }

  /** The visibility of a choice symbol: at most the mode, and never m in y mode. */
  lemma ChoiceSymVisibility(k: Kconfig, u: User, c: nat, s: nat, w: World)
    requires ProperChoice(k, c) && s in k.Ch(c).syms && k.Sym(s).choice == Some(c)
    ensures VisStep(k, u, s, w) <= ModeOf(k, u, c, w)
    ensures ModeOf(k, u, c, w) == 2 ==> VisStep(k, u, s, w) != 1
  {
    MaxBelowMode(k, u, k.Sym(s).prompts, c, w);
  }

  lemma {:induction false} FirstVisibleIs(syms: seq<nat>, w: World)
    ensures var v := FirstVisible(syms, w);
      if v.Some? then v.value in syms && w.vis(v.value) != 0 else forall s :: s in syms ==> w.vis(s) == 0
  {
    if syms != [] { FirstVisibleIs(syms[1..], w); }
  }

  lemma {:induction false} DefaultSelectionIs(k: Kconfig, u: User, ds: seq<ChoiceDefault>, w: World)
    ensures var v := DefaultSelection(k, u, ds, w);
      v.Some? ==> w.vis(v.value) != 0 && exists x :: x in ds && x.sym == v.value
  {
    if ds != [] {
      assert ds[0] in ds;
      DefaultSelectionIs(k, u, ds[1..], w);
    }
  }

  /** In y mode the selection is a visible symbol of the choice, if there is one. */
  lemma SelectionIs(k: Kconfig, u: User, c: nat, w: World)
    requires ChoicesOk(k) && ValidUser(k, u)
    ensures var v := SelStep(k, u, c, w);
      if v.Some? then v.value in k.Ch(c).syms && w.vis(v.value) != 0
      else ModeOf(k, u, c, w) != 2 || forall s :: s in k.Ch(c).syms ==> w.vis(s) == 0
  {
    FirstVisibleIs(k.Ch(c).syms, w);
    DefaultSelectionIs(k, u, k.Ch(c).defaults, w);
  }

  /** Choice exclusivity, in every user state: in y mode exactly one symbol is y if any is
      visible and the rest are n, in m mode none is y, in n mode all are n. */
  lemma ChoiceExclusive(k: Kconfig, rk: Rank, u: User, c: nat)
    requires ChoicesOk(k) && WellRanked(k, rk) && ValidUser(k, u) && ProperChoice(k, c)
    ensures var w := Eval(k, u); var mode := ModeOf(k, u, c, w);
      && (mode == 2 && (exists s :: s in k.Ch(c).syms && w.vis(s) != 0) ==>
            exists y :: y in k.Ch(c).syms && w.tri(y).val == 2 && w.sel(c) == Some(y)
              && forall s :: s in k.Ch(c).syms && s != y ==> w.tri(s).val == 0)
      && (mode == 2 && (forall s :: s in k.Ch(c).syms ==> w.vis(s) == 0) ==>
            forall s :: s in k.Ch(c).syms ==> w.tri(s).val == 0)
      && (mode == 1 ==> forall s :: s in k.Ch(c).syms ==> w.tri(s).val <= 1)
      && (mode == 0 ==> forall s :: s in k.Ch(c).syms ==> w.tri(s).val == 0)
  {
    var w := Eval(k, u);
    var mode := ModeOf(k, u, c, w);
    forall s | s in k.Ch(c).syms
      ensures w.vis(s) <= mode && (mode == 2 ==> w.vis(s) != 1)
      ensures w.tri(s) == ChoiceTriStep(u, s, c, w)
    {
      EvalAt(k, rk, u, Vis(s));
      EvalAt(k, rk, u, TriOf(s));
      ChoiceSymVisibility(k, u, c, s, w);
    }
    EvalAt(k, rk, u, Sel(c));
    SelectionIs(k, u, c, w);
    if mode == 2 && w.sel(c).Some? {
      var y := w.sel(c).value;
      assert y in k.Ch(c).syms && w.tri(y).val == 2;
    }
  }

  // ----- Assignable values -----

  /** Nothing of lower rank than the value of `s` notices a change of its user value. */
  lemma {:induction false} LowerUnchanged(
    k: Kconfig, rk: Rank, u: User, u': User, s: nat, w: World, w': World, q: Query)
    requires ChoicesOk(k) && WellRanked(k, rk) && ValidUser(k, u) && ValidUser(k, u')
    requires Solves(k, u, w) && Solves(k, u', w')
    requires BoolTristate(k.Sym(s).origType) && ChangedOnlyAt(u, u', s)
    requires Readable(q) && rk(q) < rk(TriOf(s))
    ensures Look(w', q) == Look(w, q)
    decreases rk(q)
  {
    TriRanks(k, rk, s);
    forall r | r in Reads(k, q) ensures Look(w', r) == Look(w, r) {
      if Readable(r) { LowerUnchanged(k, rk, u, u', s, w, w', r); }
    }
    if q == Vis(s) {
      ModesFollow(k, u', u, q, w', w);
      VisCongruent(k, u', u, s, w', w);
    } else {
      StepCongruent(k, u', u, q, w', w);
    }
  }

  ghost predicate ChangedOnlyAt(u: User, u': User, s: nat) {
    u'.modes == u.modes && u'.sels == u.sels && forall x: nat :: x != s ==> Get(u.vals, x) == Get(u'.vals, x)
  }

  function After(rev: Tri, promotes: bool, vis: Tri, t: Tri): Tri {
    var v := Max(rev, Min(t, vis));
    if v == 1 && promotes then 2 else v
  }

  lemma ReadsUnchanged(k: Kconfig, rk: Rank, u: User, u': User, s: nat, w: World, w': World)
    requires ChoicesOk(k) && WellRanked(k, rk) && ValidUser(k, u) && ValidUser(k, u')
    requires Solves(k, u, w) && Solves(k, u', w')
    requires BoolTristate(k.Sym(s).origType) && ChangedOnlyAt(u, u', s)
    ensures Agree(w', w, Reads(k, TriOf(s)))
  {
    ReadsUnder(k, rk, TriOf(s));
    forall r | r in Reads(k, TriOf(s)) ensures Look(w', r) == Look(w, r) {
      if Readable(r) { LowerUnchanged(k, rk, u, u', s, w, w', r); }
    }
  }

  lemma ValueInWorld(k: Kconfig, rk: Rank, u: User, u': User, s: nat, t: Tri, w: World, w': World)
    requires ChoicesOk(k) && WellRanked(k, rk) && ValidUser(k, u) && ValidUser(k, u')
    requires Solves(k, u, w) && Solves(k, u', w')
    requires BoolTristate(k.Sym(s).origType) && k.Sym(s).choice.None?
    requires ChangedOnlyAt(u, u', s) && UserLevel(u', s) == Some(t) && w.vis(s) != 0
    ensures w'.tri(s).val == After(ExprVal(k, u, k.Sym(s).revDep, w), PromotesM(k, u, s, w), w.vis(s), t)
  {
    ReadsUnchanged(k, rk, u, u', s, w, w');
    assert Look(w', TriOf(s)) == Step(k, u', TriOf(s), w');
    StepCongruent(k, u', u', TriOf(s), w', w);
    SameModesHere(k, u', u, w, AsgReads(k, s));
    PromotesCongruent(k, u', u, s, w, w);
  }

  /** The value that setting `s` to `t` gives, in terms of the state before. */
  lemma ValueAfterSet(k: Kconfig, rk: Rank, u: User, s: nat, t: Tri)
    requires ChoicesOk(k) && WellRanked(k, rk) && ValidUser(k, u)
    requires BoolTristate(k.Sym(s).origType) && k.Sym(s).choice.None? && Acceptable(k, s, Level(t))
    requires Eval(k, u).vis(s) != 0
    ensures var w := Eval(k, u);
      Eval(k, WithValue(k, u, s, Level(t))).tri(s).val
      == After(ExprVal(k, u, k.Sym(s).revDep, w), PromotesM(k, u, s, w), w.vis(s), t)
  {
    var u' := WithValue(k, u, s, Level(t));
    WithValueValid(k, u, s, Level(t));
    EvalSolves(k, rk, u);
    EvalSolves(k, rk, u');
    ValueInWorld(k, rk, u, u', s, t, Eval(k, u), Eval(k, u'));
  }

  /** A visibility of m means that the symbol is of tristate type. */
  lemma MVisibleIsTristate(k: Kconfig, rk: Rank, u: User, s: nat)
    requires ChoicesOk(k) && WellRanked(k, rk) && ValidUser(k, u)
    ensures var w := Eval(k, u); w.vis(s) == 1 ==> SymType(k, u, s, w) == TRISTATE
  {
    EvalAt(k, rk, u, Vis(s));
  }

  /** The values that set_value() can give to the symbol. */
  ghost predicate Reachable(k: Kconfig, u: User, s: nat, v: Tri) {
    exists t: Tri :: Acceptable(k, s, Level(t)) && Eval(k, WithValue(k, u, s, Level(t))).tri(s).val == v
  }

  lemma ReachableIs(k: Kconfig, rk: Rank, u: User, s: nat, v: Tri)
    requires ChoicesOk(k) && WellRanked(k, rk) && ValidUser(k, u)
    requires BoolTristate(k.Sym(s).origType) && k.Sym(s).choice.None?
    requires Eval(k, u).vis(s) != 0
    ensures var w := Eval(k, u);
      var rev, promotes, vis := ExprVal(k, u, k.Sym(s).revDep, w), PromotesM(k, u, s, w), w.vis(s);
      Reachable(k, u, s, v) <==>
        || v == After(rev, promotes, vis, 0)
        || v == After(rev, promotes, vis, 2)
        || (k.Sym(s).origType == TRISTATE && v == After(rev, promotes, vis, 1))
  {
    forall t: Tri | Acceptable(k, s, Level(t))
      ensures var w := Eval(k, u);
        Eval(k, WithValue(k, u, s, Level(t))).tri(s).val
        == After(ExprVal(k, u, k.Sym(s).revDep, w), PromotesM(k, u, s, w), w.vis(s), t)
    {
      ValueAfterSet(k, rk, u, s, t);
    }
    assert Acceptable(k, s, Level(0)) && Acceptable(k, s, Level(2));
    assert Acceptable(k, s, Level(1)) <==> k.Sym(s).origType == TRISTATE;
  }

  lemma AssignableCases(k: Kconfig, u: User, s: nat, w: World, v: Tri)
    requires BoolTristate(k.Sym(s).origType) && k.Sym(s).choice.None? && w.vis(s) != 0
    requires w.vis(s) == 1 ==> SymType(k, u, s, w) == TRISTATE
    requires !(w.vis(s) == 1 && ExprVal(k, u, k.Sym(s).revDep, w) == 1 && ExprVal(k, u, k.Sym(s).weakRevDep, w) == 2)
    ensures var rev, promotes, vis := ExprVal(k, u, k.Sym(s).revDep, w), PromotesM(k, u, s, w), w.vis(s);
      v in AsgStep(k, u, s, w) <==>
        || v == After(rev, promotes, vis, 0)
        || v == After(rev, promotes, vis, 2)
        || (k.Sym(s).origType == TRISTATE && v == After(rev, promotes, vis, 1))
  {
  }

  /** Symbol.assignable lists exactly the values that set_value() can give a visible
      symbol, if and only if it is not the case that its visibility is m, it is selected to
      m and implied to y.  (In that case m is listed, and every value becomes y.) */
  lemma AssignableExact(k: Kconfig, rk: Rank, u: User, s: nat)
    requires ChoicesOk(k) && WellRanked(k, rk) && ValidUser(k, u)
    requires BoolTristate(k.Sym(s).origType) && k.Sym(s).choice.None?
    requires Eval(k, u).vis(s) != 0
    ensures var w := Eval(k, u);
      (forall v: Tri :: v in AsgStep(k, u, s, w) <==> Reachable(k, u, s, v))
      <==> !(w.vis(s) == 1 && ExprVal(k, u, k.Sym(s).revDep, w) == 1 && ExprVal(k, u, k.Sym(s).weakRevDep, w) == 2)
  {
    var w := Eval(k, u);
    MVisibleIsTristate(k, rk, u, s);
    if w.vis(s) == 1 && ExprVal(k, u, k.Sym(s).revDep, w) == 1 && ExprVal(k, u, k.Sym(s).weakRevDep, w) == 2 {
      ReachableIs(k, rk, u, s, 1);
      assert 1 as Tri in AsgStep(k, u, s, w) && !Reachable(k, u, s, 1);
    } else {
      forall v: Tri ensures v in AsgStep(k, u, s, w) <==> Reachable(k, u, s, v) {
        ReachableIs(k, rk, u, s, v);
        AssignableCases(k, u, s, w, v);
      }
    }
  }

  // A configuration in which the exception occurs: MODULES is y, SEL is m and selects X,
  // IMP is y and implies X, and X has the prompt condition m.  (D and E also have the prompt
  // condition m, and the default y; E is selected to m.)

  function Defaulting(name: string, t: Type, v: Tri): SymbolDef {
    SymbolDef(name, t, [], [Default(Ref(NMY(v)), Y)], [], N, N, N, None, false)
  }

  const NoNumerals := Numerals((s: string, b: nat) => None, (i: int) => "", (i: int) => "")

  const Exception := Kconfig(
    [Defaulting("MODULES", BOOL, 2), Defaulting("SEL", TRISTATE, 1), Defaulting("IMP", TRISTATE, 2),
     SymbolDef("X", TRISTATE, [Ref(NMY(1))], [], [], Ref(Defined(1)), Ref(Defined(2)), Y, None, false),
     SymbolDef("D", TRISTATE, [Ref(NMY(1))], [Default(Y, Y)], [], N, N, Y, None, false),
     SymbolDef("E", TRISTATE, [Ref(NMY(1))], [Default(Y, Y)], [], Ref(Defined(1)), N, Y, None, false)],
    [], Some(0), NoNumerals)

  /** The user state in which E is set to m. */
  const SetsE := NoUser.(vals := map[5 := Level(1)])

  function SymRank(s: nat): nat { if s == 0 then 0 else if s <= 2 then 4 else 8 }

  function ExceptionRank(q: Query): nat {
    match q
    case Vis(s) => SymRank(s) + 1 case TriOf(s) => SymRank(s) + 2 case StrOf(s) => SymRank(s) + 3
    case Asg(s) => SymRank(s) + 3
    case CVis(c) => 0 case Sel(c) => 9 case CAsg(c) => 9
  }

  lemma ExceptionReads(s: nat)
    ensures DefaultReads(Exception, s) == {} && ExprsReads(Exception, Exception.Sym(s).prompts) == {}
    ensures RangeReads(Exception, s) == {} && ExprReads(Exception, Exception.Sym(s).directDep) == {}
    ensures TypeReads(Exception, s) <= {TriOf(0)} && (s == 0 ==> TypeReads(Exception, s) == {})
    ensures AsgReads(Exception, s) <= TypeReads(Exception, s) + if s == 3 || s == 5 then {TriOf(1), TriOf(2)} else {}
  {
    var k := Exception;
    assert forall x :: x in k.Sym(s).defaults ==> ExprReads(k, x.value) == {} && ExprReads(k, x.cond) == {};
  }

  lemma ExceptionRanked(q: Query, r: Query)
    requires r in Reads(Exception, q)
    ensures ExceptionRank(r) < ExceptionRank(q)
  {
    if q.Vis? || q.TriOf? || q.StrOf? || q.Asg? {
      ExceptionReads(q.s);
      assert r == Vis(q.s) || r == TriOf(q.s) || r in AsgReads(Exception, q.s);
    }
  }

  lemma ExceptionOk()
    ensures ChoicesOk(Exception) && ValidUser(Exception, NoUser) && WellRanked(Exception, ExceptionRank)
    ensures ValidUser(Exception, SetsE)
  {
    forall q, r | r in Reads(Exception, q) ensures ExceptionRank(r) < ExceptionRank(q) {
      ExceptionRanked(q, r);
    }
  }

  lemma SolvesSymbol(k: Kconfig, u: User, w: World, s: nat)
    requires Solves(k, u, w)
    ensures w.vis(s) == VisStep(k, u, s, w) && w.tri(s) == TriStep(k, u, s, w)
  {
    assert Look(w, Vis(s)) == Step(k, u, Vis(s), w) && Look(w, TriOf(s)) == Step(k, u, TriOf(s), w);
  }

  lemma DefaultingValue(u: User, w: World, s: nat)
    requires Solves(Exception, u, w) && s < 3
    ensures w.tri(s).val == if s == 1 && ModulesVal(Exception, w) != 0 then 1 else 2
  {
    var k := Exception;
    SolvesSymbol(k, u, w, s);
    assert Conds(k.Sym(s).defaults) == [Y];
    assert FirstOn(k, u, [Y], w) == 0;
    assert w.vis(s) == 0;
    assert BaseTri(k, u, s, w).val == if s == 1 then 1 else 2;
  }

  lemma ExceptionWorld(u: User, w: World)
    requires Solves(Exception, u, w)
    ensures w.vis(3) == w.vis(4) == w.vis(5) == 1 && w.tri(1).val == 1 && w.tri(2).val == 2
  {
    DefaultingValue(u, w, 0);
    DefaultingValue(u, w, 1);
    DefaultingValue(u, w, 2);
    SolvesSymbol(Exception, u, w, 3);
    SolvesSymbol(Exception, u, w, 4);
    SolvesSymbol(Exception, u, w, 5);
    assert Exception.Sym(3).prompts[..0] == [];
    assert MaxVal(Exception, u, Exception.Sym(3).prompts, w) == 1;
  }

  /** Such a symbol exists: `assignable` says m, and every assignment gives y. */
  lemma AssignableFails()
    ensures ChoicesOk(Exception) && WellRanked(Exception, ExceptionRank) && ValidUser(Exception, NoUser)
    ensures AsgStep(Exception, NoUser, 3, Eval(Exception, NoUser)) == [1]
    ensures forall v: Tri :: Reachable(Exception, NoUser, 3, v) <==> v == 2
  {
    ExceptionOk();
    EvalSolves(Exception, ExceptionRank, NoUser);
    ExceptionWorld(NoUser, Eval(Exception, NoUser));
    forall v: Tri ensures Reachable(Exception, NoUser, 3, v) <==> v == 2 {
      ReachableIs(Exception, ExceptionRank, NoUser, 3, v);
    }
  }
}

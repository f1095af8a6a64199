/**
  Plain (uncached) recursive evaluation of a configuration: which quantities each
  equation can read, the rank that makes the recursion well founded, and the proof that
  the recursion computes the one solution of the equations.
 */
module Evaluation {
  import opened Model

  // ----- What each equation can read -----

  function ModulesRead(k: Kconfig, t: Type): set<Query> {
    if t == TRISTATE && k.modules.Some? then {TriOf(k.modules.value)} else {}
  }

  function ModeReads(k: Kconfig, c: nat): set<Query> {
    {CVis(c)} + ModulesRead(k, k.Ch(c).origType)
  }

  function SymReads(x: Sym): set<Query> {
    if x.Defined? then {TriOf(x.id), StrOf(x.id)} else {}
  }

  function TriReads(x: Sym): set<Query> { if x.Defined? then {TriOf(x.id)} else {} }

  function StrReads(x: Sym): set<Query> { if x.Defined? then {StrOf(x.id)} else {} }

  function ExprReads(k: Kconfig, e: Expr): set<Query> {
    match e
    case Ref(x) => TriReads(x)
    case Mode(c) => ModeReads(k, c)
    case And(l, r) => ExprReads(k, l) + ExprReads(k, r)
    case Or(l, r) => ExprReads(k, l) + ExprReads(k, r)
    case Not(x) => ExprReads(k, x)
    case Rel(_, a, b) => SymReads(a) + SymReads(b)
  }

  function ExprsReads(k: Kconfig, es: seq<Expr>): set<Query> {
    set e, q | e in es && q in ExprReads(k, e) :: q
  }

  function TypeReads(k: Kconfig, s: nat): set<Query> {
    var d := k.Sym(s);
    ModulesRead(k, d.origType) + if d.choice.Some? then ModeReads(k, d.choice.value) else {}
  }

  function DefaultReads(k: Kconfig, s: nat): set<Query> {
    var d := k.Sym(s);
    ExprsReads(k, Conds(d.defaults))
    + if BoolTristate(d.origType) then (set x, q | x in d.defaults && q in ExprReads(k, x.value) :: q)
      else (set x, q | x in d.defaults && x.value.Ref? && q in StrReads(x.value.sym) :: q)
  }

  function RangeReads(k: Kconfig, s: nat): set<Query> {
    var rs := k.Sym(s).ranges;
    ExprsReads(k, RangeConds(rs)) + set r, q | r in rs && q in StrReads(r.low) + StrReads(r.high) :: q
  }

  function AsgReads(k: Kconfig, s: nat): set<Query> {
    ExprReads(k, k.Sym(s).weakRevDep) + ExprReads(k, k.Sym(s).revDep) + TypeReads(k, s)
  }

  function PlainTriReads(k: Kconfig, s: nat): set<Query> {
    DefaultReads(k, s) + ExprReads(k, k.Sym(s).directDep) + AsgReads(k, s)
  }

  /** The quantities that the equation of `q` can read. */
  function Reads(k: Kconfig, q: Query): set<Query> {
    match q
    case Vis(s) => ExprsReads(k, k.Sym(s).prompts) + TypeReads(k, s)
    case TriOf(s) =>
      var d := k.Sym(s);
      if !BoolTristate(d.origType) then {}
      else if d.choice.Some? then {Vis(s), Sel(d.choice.value)}
      else {Vis(s)} + PlainTriReads(k, s)
    case StrOf(s) =>
      var d := k.Sym(s);
      if BoolTristate(d.origType) then {TriOf(s)}
      else if d.origType == UNKNOWN then {}
      else {Vis(s)} + DefaultReads(k, s) + if IntHex(d.origType) then RangeReads(k, s) else {}
    case Asg(s) =>
      var d := k.Sym(s);
      if !BoolTristate(d.origType) then {} else {Vis(s)} + AsgReads(k, s)
    case CVis(c) => ExprsReads(k, k.Ch(c).prompts) + ModulesRead(k, k.Ch(c).origType)
    case Sel(c) =>
      ModeReads(k, c) + ExprsReads(k, ChoiceConds(k.Ch(c).defaults)) + set s | s in k.Ch(c).syms :: Vis(s)
    case CAsg(c) => ModeReads(k, c)
  }

  // ----- Well-formed configurations -----

  /** The assumptions about choices: a choice lists exactly the symbols that name it as
      their choice, and its defaults are among them. */
  ghost predicate ChoicesOk(k: Kconfig) {
    && (forall s: nat {:trigger k.Sym(s).choice} :: k.Sym(s).choice.Some? ==> s in k.Ch(k.Sym(s).choice.value).syms)
    && (forall s: nat, c: nat {:trigger s in k.Ch(c).syms} :: s in k.Ch(c).syms ==> k.Sym(s).choice == Some(c))
    && (forall c: nat, x :: x in k.Ch(c).defaults ==> x.sym in k.Ch(c).syms)
  }

  type Rank = Query -> nat

  /** `rk` decreases along every read: evaluation cannot go in circles. */
  ghost predicate WellRanked(k: Kconfig, rk: Rank) {
    forall q, r {:trigger r in Reads(k, q)} :: r in Reads(k, q) ==> rk(r) < rk(q)
  }

  /** All the quantities are of rank below `n`. */
  ghost predicate Under(rk: Rank, qs: set<Query>, n: nat) {
    forall r {:trigger r in qs} :: r in qs ==> rk(r) < n
  }

  /** A rank above those of finitely many quantities. */
  ghost function Bound(rk: Rank, qs: set<Query>): (n: nat)
    ensures Under(rk, qs, n)
  {
    if qs == {} then 0
    else
      var q :| q in qs;
      var n := Bound(rk, qs - {q});
      assert forall r :: r in qs ==> r == q || r in qs - {q};
      if rk(q) < n then n else rk(q) + 1
  }

  lemma ReadsUnder(k: Kconfig, rk: Rank, q: Query)
    requires WellRanked(k, rk)
    ensures Under(rk, Reads(k, q), rk(q))
  {
  }

  lemma VisRanks(k: Kconfig, rk: Rank, s: nat)
    requires WellRanked(k, rk)
    ensures Under(rk, ExprsReads(k, k.Sym(s).prompts), rk(Vis(s)))
    ensures Under(rk, TypeReads(k, s), rk(Vis(s)))
    ensures k.Sym(s).choice.Some? ==> Under(rk, ModeReads(k, k.Sym(s).choice.value), rk(Vis(s)))
  {
    ReadsUnder(k, rk, Vis(s));
    assert k.Sym(s).choice.Some? ==> ModeReads(k, k.Sym(s).choice.value) <= TypeReads(k, s);
  }

  lemma TriRanks(k: Kconfig, rk: Rank, s: nat)
    requires WellRanked(k, rk) && BoolTristate(k.Sym(s).origType)
    ensures rk(Vis(s)) < rk(TriOf(s)) < rk(StrOf(s))
    ensures k.Sym(s).choice.Some? ==> rk(Sel(k.Sym(s).choice.value)) < rk(TriOf(s))
    ensures k.Sym(s).choice.None? ==> Under(rk, PlainTriReads(k, s), rk(TriOf(s)))
  {
    ReadsUnder(k, rk, TriOf(s));
    ReadsUnder(k, rk, StrOf(s));
    assert Vis(s) in Reads(k, TriOf(s)) && TriOf(s) in Reads(k, StrOf(s));
    assert k.Sym(s).choice.Some? ==> Sel(k.Sym(s).choice.value) in Reads(k, TriOf(s));
  }

  lemma StrRanks(k: Kconfig, rk: Rank, s: nat)
    requires WellRanked(k, rk) && !BoolTristate(k.Sym(s).origType) && k.Sym(s).origType != UNKNOWN
    ensures rk(Vis(s)) < rk(StrOf(s))
    ensures Under(rk, DefaultReads(k, s), rk(StrOf(s)))
    ensures IntHex(k.Sym(s).origType) ==> Under(rk, RangeReads(k, s), rk(StrOf(s)))
  {
    ReadsUnder(k, rk, StrOf(s));
    assert Vis(s) in Reads(k, StrOf(s));
  }

  lemma AsgRanks(k: Kconfig, rk: Rank, s: nat)
    requires WellRanked(k, rk) && BoolTristate(k.Sym(s).origType)
    ensures Under(rk, AsgReads(k, s), rk(Asg(s)))
  {
    ReadsUnder(k, rk, Asg(s));
  }

  lemma ChoiceRanks(k: Kconfig, rk: Rank, c: nat)
    requires WellRanked(k, rk)
    ensures Under(rk, ExprsReads(k, k.Ch(c).prompts), rk(CVis(c)))
    ensures Under(rk, ModulesRead(k, k.Ch(c).origType), rk(CVis(c)))
    ensures Under(rk, ModeReads(k, c), rk(CAsg(c)))
    ensures Under(rk, ModulesRead(k, k.Ch(c).origType), rk(CAsg(c)))
    ensures Under(rk, ModeReads(k, c), rk(Sel(c)))
    ensures Under(rk, ExprsReads(k, ChoiceConds(k.Ch(c).defaults)), rk(Sel(c)))
  {
    ReadsUnder(k, rk, CVis(c));
    ReadsUnder(k, rk, CAsg(c));
    ReadsUnder(k, rk, Sel(c));
  }

  lemma SelRanks(k: Kconfig, rk: Rank, c: nat, s: nat)
    requires WellRanked(k, rk) && s in k.Ch(c).syms
    ensures rk(Vis(s)) < rk(Sel(c))
  {
    assert Vis(s) in Reads(k, Sel(c));
  }

  /** The user state that set_value() keeps: every value fits the type of its symbol and
      the user selection of a choice is one of its symbols. */
  predicate Acceptable(k: Kconfig, s: nat, v: UserVal) {
    var t := k.Sym(s).origType;
    match v
    case Level(l) => t == TRISTATE || (t == BOOL && l != 1)
    case Text(x) =>
      || t == STRING || t == KEY
      || (t == INT && k.num.parse(x, 10).Some?)
      || (t == HEX && k.num.parse(x, 16).Some? && k.num.parse(x, 16).value >= 0)
  }

  predicate ModeAcceptable(k: Kconfig, c: nat, t: Tri) {
    k.Ch(c).origType == TRISTATE || (k.Ch(c).origType == BOOL && t != 1)
  }

  predicate ValidUser(k: Kconfig, u: User) {
    && (forall c <- u.modes :: ModeAcceptable(k, c, u.modes[c]))
    && (forall s <- u.vals :: Acceptable(k, s, u.vals[s]))
    && (forall c <- u.sels :: u.sels[c] in k.Ch(c).syms)
  }

  // ----- Congruence: an equation looks at nothing else -----

  ghost predicate Agree(w: World, w': World, qs: set<Query>) {
    forall q :: q in qs ==> Look(w, q) == Look(w', q)
  }

  /** The choices among the quantities are in the same mode. */
  ghost predicate SameModes(k: Kconfig, u: User, u': User, w: World, w': World, qs: set<Query>) {
    forall c :: CVis(c) in qs ==> ModeOf(k, u, c, w) == ModeOf(k, u', c, w')
  }

  lemma ModulesCongruent(k: Kconfig, t: Type, w: World, w': World)
    requires Agree(w, w', ModulesRead(k, t))
    ensures t == TRISTATE ==> ModulesVal(k, w) == ModulesVal(k, w')
  {
    if t == TRISTATE && k.modules.Some? {
      assert Look(w, TriOf(k.modules.value)) == Look(w', TriOf(k.modules.value));
    }
  }

  lemma ModeCongruent(k: Kconfig, u: User, u': User, c: nat, w: World, w': World)
    requires Agree(w, w', ModeReads(k, c)) && Get(u.modes, c) == Get(u'.modes, c)
    ensures ModeOf(k, u, c, w) == ModeOf(k, u', c, w')
    ensures ChoiceType(k, c, w) == ChoiceType(k, c, w')
  {
    ModulesCongruent(k, k.Ch(c).origType, w, w');
    assert Look(w, CVis(c)) == Look(w', CVis(c));
  }

  lemma SymCongruent(k: Kconfig, x: Sym, w: World, w': World)
    ensures Agree(w, w', TriReads(x)) ==> SymTri(x, w) == SymTri(x, w')
    ensures Agree(w, w', StrReads(x)) ==> SymStr(x, w) == SymStr(x, w')
  {
    if x.Defined? {
      assert TriOf(x.id) in TriReads(x) && StrOf(x.id) in StrReads(x);
      assert Agree(w, w', TriReads(x)) ==> Look(w, TriOf(x.id)) == Look(w', TriOf(x.id));
      assert Agree(w, w', StrReads(x)) ==> Look(w, StrOf(x.id)) == Look(w', StrOf(x.id));
    }
  }

  lemma {:induction false} ExprCongruent(k: Kconfig, u: User, u': User, e: Expr, w: World, w': World)
    requires Agree(w, w', ExprReads(k, e)) && SameModes(k, u, u', w, w', ExprReads(k, e))
    ensures ExprVal(k, u, e, w) == ExprVal(k, u', e, w')
  {
    match e
    case Ref(x) => SymCongruent(k, x, w, w');
    case Mode(c) => assert CVis(c) in ExprReads(k, e);
    case And(l, r) =>
      ExprCongruent(k, u, u', l, w, w');
      ExprCongruent(k, u, u', r, w, w');
    case Or(l, r) =>
      ExprCongruent(k, u, u', l, w, w');
      ExprCongruent(k, u, u', r, w, w');
    case Not(x) => ExprCongruent(k, u, u', x, w, w');
    case Rel(_, a, b) =>
      SymCongruent(k, a, w, w');
      SymCongruent(k, b, w, w');
      assert TriReads(a) + StrReads(a) == SymReads(a) && TriReads(b) + StrReads(b) == SymReads(b);
  }

  lemma MemberCongruent(k: Kconfig, u: User, u': User, es: seq<Expr>, e: Expr, w: World, w': World)
    requires e in es && Agree(w, w', ExprsReads(k, es)) && SameModes(k, u, u', w, w', ExprsReads(k, es))
    ensures ExprVal(k, u, e, w) == ExprVal(k, u', e, w')
  {
    assert ExprReads(k, e) <= ExprsReads(k, es);
    ExprCongruent(k, u, u', e, w, w');
  }

  lemma {:induction false} MaxCongruent(k: Kconfig, u: User, u': User, es: seq<Expr>, w: World, w': World)
    requires Agree(w, w', ExprsReads(k, es)) && SameModes(k, u, u', w, w', ExprsReads(k, es))
    ensures MaxVal(k, u, es, w) == MaxVal(k, u', es, w')
  {
    if es != [] {
      assert ExprsReads(k, es[..|es| - 1]) <= ExprsReads(k, es);
      MaxCongruent(k, u, u', es[..|es| - 1], w, w');
      MemberCongruent(k, u, u', es, es[|es| - 1], w, w');
    }
  }

  lemma FirstOnCongruent(k: Kconfig, u: User, u': User, es: seq<Expr>, w: World, w': World)
    requires Agree(w, w', ExprsReads(k, es)) && SameModes(k, u, u', w, w', ExprsReads(k, es))
    ensures FirstOn(k, u, es, w) == FirstOn(k, u', es, w')
  {
    forall e | e in es ensures ExprVal(k, u, e, w) == ExprVal(k, u', e, w') {
      MemberCongruent(k, u, u', es, e, w, w');
    }
    var i, i' := FirstOn(k, u, es, w), FirstOn(k, u', es, w');
    assert i < |es| ==> es[i] in es;
    assert i' < |es| ==> es[i'] in es;
  }

  lemma TypeCongruent(k: Kconfig, u: User, u': User, s: nat, w: World, w': World)
    requires Agree(w, w', TypeReads(k, s)) && SameModes(k, u, u', w, w', TypeReads(k, s))
    ensures SymType(k, u, s, w) == SymType(k, u', s, w')
    ensures k.Sym(s).choice.Some? ==>
              ModeOf(k, u, k.Sym(s).choice.value, w) == ModeOf(k, u', k.Sym(s).choice.value, w')
  {
    var d := k.Sym(s);
    if d.choice.Some? {
      assert CVis(d.choice.value) in TypeReads(k, s);
    }
    ModulesCongruent(k, d.origType, w, w');
  }

  lemma DefaultTriCongruent(k: Kconfig, u: User, u': User, s: nat, w: World, w': World)
    requires BoolTristate(k.Sym(s).origType)
    requires Agree(w, w', DefaultReads(k, s)) && SameModes(k, u, u', w, w', DefaultReads(k, s))
    ensures DefaultTri(k, u, s, w) == DefaultTri(k, u', s, w')
  {
    var ds := k.Sym(s).defaults;
    FirstOnCongruent(k, u, u', Conds(ds), w, w');
    var i := FirstOn(k, u, Conds(ds), w);
    if i < |ds| {
      assert Conds(ds)[i] == ds[i].cond && ds[i] in ds;
      MemberCongruent(k, u, u', Conds(ds), ds[i].cond, w, w');
      assert ExprReads(k, ds[i].value) <= DefaultReads(k, s);
      ExprCongruent(k, u, u', ds[i].value, w, w');
    }
  }

  lemma DefaultStrCongruent(k: Kconfig, u: User, u': User, s: nat, w: World, w': World)
    requires !BoolTristate(k.Sym(s).origType)
    requires Agree(w, w', DefaultReads(k, s)) && SameModes(k, u, u', w, w', DefaultReads(k, s))
    ensures DefaultStr(k, u, s, w) == DefaultStr(k, u', s, w')
  {
    var ds := k.Sym(s).defaults;
    FirstOnCongruent(k, u, u', Conds(ds), w, w');
    var i := FirstOn(k, u, Conds(ds), w);
    if i < |ds| && ds[i].value.Ref? {
      assert ds[i] in ds;
      assert StrReads(ds[i].value.sym) <= DefaultReads(k, s);
      SymCongruent(k, ds[i].value.sym, w, w');
    }
  }

  lemma RangeCongruent(k: Kconfig, u: User, u': User, s: nat, w: World, w': World)
    requires Agree(w, w', RangeReads(k, s)) && SameModes(k, u, u', w, w', RangeReads(k, s))
    ensures ActiveRange(k, u, s, w) == ActiveRange(k, u', s, w')
  {
    var rs := k.Sym(s).ranges;
    FirstOnCongruent(k, u, u', RangeConds(rs), w, w');
    var i := FirstOn(k, u, RangeConds(rs), w);
    if i < |rs| {
      assert rs[i] in rs;
      assert StrReads(rs[i].low) + StrReads(rs[i].high) <= RangeReads(k, s);
      SymCongruent(k, rs[i].low, w, w');
      SymCongruent(k, rs[i].high, w, w');
    }
  }

  lemma {:induction false} FirstVisibleCongruent(syms: seq<nat>, w: World, w': World)
    requires forall s :: s in syms ==> w.vis(s) == w'.vis(s)
    ensures FirstVisible(syms, w) == FirstVisible(syms, w')
  {
    if syms != [] && w.vis(syms[0]) == 0 {
      FirstVisibleCongruent(syms[1..], w, w');
    }
  }

  lemma {:induction false} DefaultSelectionCongruent(
    k: Kconfig, u: User, u': User, ds: seq<ChoiceDefault>, w: World, w': World)
    requires forall x :: x in ds ==> w.vis(x.sym) == w'.vis(x.sym)
    requires forall x :: x in ds ==> ExprVal(k, u, x.cond, w) == ExprVal(k, u', x.cond, w')
    ensures DefaultSelection(k, u, ds, w) == DefaultSelection(k, u', ds, w')
  {
    if ds != [] {
      assert ds[0] in ds;
      DefaultSelectionCongruent(k, u, u', ds[1..], w, w');
    }
  }

  lemma SelectionCongruent(k: Kconfig, u: User, u': User, c: nat, w: World, w': World)
    requires ChoicesOk(k)
    requires Agree(w, w', Reads(k, Sel(c))) && SameModes(k, u, u', w, w', Reads(k, Sel(c)))
    ensures SelectionFromDefaults(k, u, c, w) == SelectionFromDefaults(k, u', c, w')
    ensures forall s :: s in k.Ch(c).syms ==> w.vis(s) == w'.vis(s)
  {
    var d := k.Ch(c);
    forall s | s in d.syms ensures w.vis(s) == w'.vis(s) {
      assert Vis(s) in Reads(k, Sel(c));
      assert Look(w, Vis(s)) == Look(w', Vis(s));
    }
    forall x | x in d.defaults ensures ExprVal(k, u, x.cond, w) == ExprVal(k, u', x.cond, w') {
      var i :| 0 <= i < |d.defaults| && d.defaults[i] == x;
      assert ChoiceConds(d.defaults)[i] == x.cond;
      MemberCongruent(k, u, u', ChoiceConds(d.defaults), x.cond, w, w');
    }
    FirstVisibleCongruent(d.syms, w, w');
    DefaultSelectionCongruent(k, u, u', d.defaults, w, w');
  }

  /** What an equation takes from the user state, besides the modes of choices it reads. */
  ghost predicate SameOwn(u: User, u': User, i: Item) {
    match i
    case S(s) => Get(u.vals, s) == Get(u'.vals, s)
    case C(c) => Get(u.sels, c) == Get(u'.sels, c)
  }

  lemma BaseTriCongruent(k: Kconfig, u: User, u': User, s: nat, w: World, w': World)
    requires BoolTristate(k.Sym(s).origType) && w.vis(s) == w'.vis(s)
    requires SameOwn(u, u', S(s)) || w.vis(s) == 0
    requires Agree(w, w', PlainTriReads(k, s)) && SameModes(k, u, u', w, w', PlainTriReads(k, s))
    ensures BaseTri(k, u, s, w) == BaseTri(k, u', s, w')
  {
    DefaultTriCongruent(k, u, u', s, w, w');
    ExprCongruent(k, u, u', k.Sym(s).weakRevDep, w, w');
    ExprCongruent(k, u, u', k.Sym(s).directDep, w, w');
  }

  lemma PromotesCongruent(k: Kconfig, u: User, u': User, s: nat, w: World, w': World)
    requires Agree(w, w', AsgReads(k, s)) && SameModes(k, u, u', w, w', AsgReads(k, s))
    ensures PromotesM(k, u, s, w) == PromotesM(k, u', s, w')
    ensures ExprVal(k, u, k.Sym(s).weakRevDep, w) == ExprVal(k, u', k.Sym(s).weakRevDep, w')
    ensures ExprVal(k, u, k.Sym(s).revDep, w) == ExprVal(k, u', k.Sym(s).revDep, w')
  {
    ExprCongruent(k, u, u', k.Sym(s).weakRevDep, w, w');
    ExprCongruent(k, u, u', k.Sym(s).revDep, w, w');
    TypeCongruent(k, u, u', s, w, w');
  }

  lemma PlainTriCongruent(k: Kconfig, u: User, u': User, s: nat, w: World, w': World)
    requires BoolTristate(k.Sym(s).origType) && w.vis(s) == w'.vis(s)
    requires SameOwn(u, u', S(s)) || w.vis(s) == 0
    requires Agree(w, w', PlainTriReads(k, s)) && SameModes(k, u, u', w, w', PlainTriReads(k, s))
    ensures PlainTriStep(k, u, s, w) == PlainTriStep(k, u', s, w')
  {
    BaseTriCongruent(k, u, u', s, w, w');
    PromotesCongruent(k, u, u', s, w, w');
  }

  lemma TriCongruent(k: Kconfig, u: User, u': User, s: nat, w: World, w': World)
    requires SameOwn(u, u', S(s))
    requires Agree(w, w', Reads(k, TriOf(s))) && SameModes(k, u, u', w, w', Reads(k, TriOf(s)))
    ensures TriStep(k, u, s, w) == TriStep(k, u', s, w')
  {
    var d := k.Sym(s);
    if BoolTristate(d.origType) {
      assert Look(w, Vis(s)) == Look(w', Vis(s));
      if d.choice.Some? {
        assert Look(w, Sel(d.choice.value)) == Look(w', Sel(d.choice.value));
      } else {
        PlainTriCongruent(k, u, u', s, w, w');
      }
    }
  }

  lemma TypedStrCongruent(k: Kconfig, u: User, u': User, s: nat, w: World, w': World)
    requires !BoolTristate(k.Sym(s).origType) && w.vis(s) == w'.vis(s)
    requires SameOwn(u, u', S(s)) || w.vis(s) == 0
    requires Agree(w, w', DefaultReads(k, s)) && SameModes(k, u, u', w, w', DefaultReads(k, s))
    requires IntHex(k.Sym(s).origType) ==>
      Agree(w, w', RangeReads(k, s)) && SameModes(k, u, u', w, w', RangeReads(k, s))
    ensures TypedStrStep(k, u, s, w) == TypedStrStep(k, u', s, w')
  {
    DefaultStrCongruent(k, u, u', s, w, w');
    if IntHex(k.Sym(s).origType) {
      RangeCongruent(k, u, u', s, w, w');
    }
  }

  lemma StrCongruent(k: Kconfig, u: User, u': User, s: nat, w: World, w': World)
    requires SameOwn(u, u', S(s))
    requires Agree(w, w', Reads(k, StrOf(s))) && SameModes(k, u, u', w, w', Reads(k, StrOf(s)))
    ensures StrStep(k, u, s, w) == StrStep(k, u', s, w')
  {
    var d := k.Sym(s);
    if BoolTristate(d.origType) {
      assert Look(w, TriOf(s)) == Look(w', TriOf(s));
    } else if d.origType != UNKNOWN {
      assert Look(w, Vis(s)) == Look(w', Vis(s));
      TypedStrCongruent(k, u, u', s, w, w');
    }
  }

  lemma VisCongruent(k: Kconfig, u: User, u': User, s: nat, w: World, w': World)
    requires Agree(w, w', Reads(k, Vis(s))) && SameModes(k, u, u', w, w', Reads(k, Vis(s)))
    ensures VisStep(k, u, s, w) == VisStep(k, u', s, w')
  {
    MaxCongruent(k, u, u', k.Sym(s).prompts, w, w');
    TypeCongruent(k, u, u', s, w, w');
  }

  lemma AsgCongruent(k: Kconfig, u: User, u': User, s: nat, w: World, w': World)
    requires Agree(w, w', Reads(k, Asg(s))) && SameModes(k, u, u', w, w', Reads(k, Asg(s)))
    ensures AsgStep(k, u, s, w) == AsgStep(k, u', s, w')
  {
    var d := k.Sym(s);
    if BoolTristate(d.origType) {
      assert Look(w, Vis(s)) == Look(w', Vis(s));
      PromotesCongruent(k, u, u', s, w, w');
    }
  }

  lemma CVisCongruent(k: Kconfig, u: User, u': User, c: nat, w: World, w': World)
    requires Agree(w, w', Reads(k, CVis(c))) && SameModes(k, u, u', w, w', Reads(k, CVis(c)))
    ensures CVisStep(k, u, c, w) == CVisStep(k, u', c, w')
  {
    MaxCongruent(k, u, u', k.Ch(c).prompts, w, w');
    ModulesCongruent(k, k.Ch(c).origType, w, w');
  }

  lemma SelCongruent(k: Kconfig, u: User, u': User, c: nat, w: World, w': World)
    requires ChoicesOk(k) && ValidUser(k, u) && ValidUser(k, u')
    requires SameOwn(u, u', C(c))
    requires Agree(w, w', Reads(k, Sel(c))) && SameModes(k, u, u', w, w', Reads(k, Sel(c)))
    ensures SelStep(k, u, c, w) == SelStep(k, u', c, w')
  {
    assert CVis(c) in Reads(k, Sel(c));
    SelectionCongruent(k, u, u', c, w, w');
  }

  lemma CAsgCongruent(k: Kconfig, c: nat, w: World, w': World)
    requires Agree(w, w', Reads(k, CAsg(c)))
    ensures CAsgStep(k, c, w) == CAsgStep(k, c, w')
  {
    assert Look(w, CVis(c)) == Look(w', CVis(c));
    ModulesCongruent(k, k.Ch(c).origType, w, w');
  }

  /** The equation of `q` has the same result in any two states that agree on what it can
      read, on the modes of choices, and on the user value of its own symbol or choice. */
  lemma StepModesCongruent(k: Kconfig, u: User, u': User, q: Query, w: World, w': World)
    requires ChoicesOk(k) && ValidUser(k, u) && ValidUser(k, u')
    requires SameOwn(u, u', ItemOf(q))
    requires Agree(w, w', Reads(k, q)) && SameModes(k, u, u', w, w', Reads(k, q))
    ensures Step(k, u, q, w) == Step(k, u', q, w')
  {
    match q
    case Vis(s) => VisCongruent(k, u, u', s, w, w');
    case TriOf(s) => TriCongruent(k, u, u', s, w, w');
    case StrOf(s) => StrCongruent(k, u, u', s, w, w');
    case Asg(s) => AsgCongruent(k, u, u', s, w, w');
    case CVis(c) => CVisCongruent(k, u, u', c, w, w');
    case Sel(c) => SelCongruent(k, u, u', c, w, w');
    case CAsg(c) => CAsgCongruent(k, c, w, w');
  }

  /** Whoever can read the visibility of a choice can read all that its mode is made of. */
  ghost predicate ModeClosed(k: Kconfig, qs: set<Query>) {
    forall c :: CVis(c) in qs ==> ModeReads(k, c) <= qs
  }

  lemma {:induction false} ExprModeClosed(k: Kconfig, e: Expr)
    ensures ModeClosed(k, ExprReads(k, e))
  {
    match e
    case And(l, r) => ExprModeClosed(k, l); ExprModeClosed(k, r);
    case Or(l, r) => ExprModeClosed(k, l); ExprModeClosed(k, r);
    case Not(x) => ExprModeClosed(k, x);
    case _ =>
  }

  lemma ExprsModeClosed(k: Kconfig, es: seq<Expr>)
    ensures ModeClosed(k, ExprsReads(k, es))
  {
    forall c | CVis(c) in ExprsReads(k, es) ensures ModeReads(k, c) <= ExprsReads(k, es) {
      var e :| e in es && CVis(c) in ExprReads(k, e);
      ExprModeClosed(k, e);
      assert ExprReads(k, e) <= ExprsReads(k, es);
    }
  }

  lemma DefaultModeClosed(k: Kconfig, s: nat)
    ensures ModeClosed(k, DefaultReads(k, s)) && ModeClosed(k, RangeReads(k, s))
  {
    var d := k.Sym(s);
    ExprsModeClosed(k, Conds(d.defaults));
    ExprsModeClosed(k, RangeConds(d.ranges));
    forall c | CVis(c) in DefaultReads(k, s) ensures ModeReads(k, c) <= DefaultReads(k, s) {
      if CVis(c) !in ExprsReads(k, Conds(d.defaults)) {
        var x :| x in d.defaults && CVis(c) in ExprReads(k, x.value);
        ExprModeClosed(k, x.value);
        assert ExprReads(k, x.value) <= DefaultReads(k, s);
      }
    }
  }

  lemma ReadsModeClosed(k: Kconfig, q: Query)
    ensures ModeClosed(k, Reads(k, q))
  {
    match q
    case CVis(c) => ExprsModeClosed(k, k.Ch(c).prompts);
    case Sel(c) => ExprsModeClosed(k, ChoiceConds(k.Ch(c).defaults));
    case CAsg(c) =>
    case _ =>
      ExprsModeClosed(k, k.Sym(q.s).prompts);
      DefaultModeClosed(k, q.s);
      ExprModeClosed(k, k.Sym(q.s).weakRevDep);
      ExprModeClosed(k, k.Sym(q.s).revDep);
      ExprModeClosed(k, k.Sym(q.s).directDep);
  }

  ghost predicate SameUserModes(u: User, u': User, qs: set<Query>) {
    forall c :: CVis(c) in qs ==> Get(u.modes, c) == Get(u'.modes, c)
  }

  lemma ModesFollow(k: Kconfig, u: User, u': User, q: Query, w: World, w': World)
    requires Agree(w, w', Reads(k, q)) && SameUserModes(u, u', Reads(k, q))
    ensures SameModes(k, u, u', w, w', Reads(k, q))
  {
    ReadsModeClosed(k, q);
    forall c | CVis(c) in Reads(k, q) ensures ModeOf(k, u, c, w) == ModeOf(k, u', c, w') {
      ModeCongruent(k, u, u', c, w, w');
    }
  }

  /** The same, when the user modes agree. */
  lemma StepCongruent(k: Kconfig, u: User, u': User, q: Query, w: World, w': World)
    requires ChoicesOk(k) && ValidUser(k, u) && ValidUser(k, u')
    requires SameOwn(u, u', ItemOf(q))
    requires Agree(w, w', Reads(k, q)) && SameUserModes(u, u', Reads(k, q))
    ensures Step(k, u, q, w) == Step(k, u', q, w')
  {
    ModesFollow(k, u, u', q, w, w');
    StepModesCongruent(k, u, u', q, w, w');
  }

  /** A symbol all of whose prompts are n, if it has any, is invisible whatever happens.
      Propagation makes such prompts out of `depends on n`, and nothing else is left in them. */
  predicate NeverVisible(k: Kconfig, s: nat) { forall p <- k.Sym(s).prompts :: p == N }

  lemma {:induction false} MaxOfNs(k: Kconfig, u: User, es: seq<Expr>, w: World)
    requires forall i :: 0 <= i < |es| ==> es[i] == N
    ensures MaxVal(k, u, es, w) == 0
  {
    if es != [] { MaxOfNs(k, u, es[..|es| - 1], w); }
  }

  lemma NeverVisibleIs(k: Kconfig, u: User, s: nat, w: World)
    requires NeverVisible(k, s)
    ensures VisStep(k, u, s, w) == 0
  {
    var es := k.Sym(s).prompts;
    forall i | 0 <= i < |es| ensures es[i] == N { assert es[i] in es; }
    MaxOfNs(k, u, es, w);
  }

  /** The quantities that matter for `q`: nothing but the visibility of a symbol that can
      never be visible does, and that is constant. */
  function Matters(k: Kconfig, q: Query): set<Query> {
    match q
    case Vis(s) => if NeverVisible(k, s) then {} else Reads(k, q)
    case TriOf(s) => if NeverVisible(k, s) && k.Sym(s).choice.Some? then {Vis(s)} else Reads(k, q)
    case Asg(s) => if NeverVisible(k, s) then {Vis(s)} else Reads(k, q)
    case _ => Reads(k, q)
  }

  /** In states where a symbol that can never be visible is not, its equations look only at
      what matters. */
  ghost predicate HiddenIn(k: Kconfig, q: Query, w: World) {
    ItemOf(q).S? && NeverVisible(k, ItemOf(q).s) ==> w.vis(ItemOf(q).s) == 0
  }

  lemma StepMatters(k: Kconfig, u: User, u': User, q: Query, w: World, w': World)
    requires ChoicesOk(k) && ValidUser(k, u) && ValidUser(k, u')
    requires SameOwn(u, u', ItemOf(q)) && (q.Vis? || (HiddenIn(k, q, w) && HiddenIn(k, q, w')))
    requires Agree(w, w', Matters(k, q)) && SameUserModes(u, u', Matters(k, q))
    ensures Step(k, u, q, w) == Step(k, u', q, w')
  {
    if q.Vis? && NeverVisible(k, q.s) {
      NeverVisibleIs(k, u, q.s, w);
      NeverVisibleIs(k, u', q.s, w');
    } else if Matters(k, q) == Reads(k, q) {
      StepCongruent(k, u, u', q, w, w');
    }
  }

  lemma SameModesHere(k: Kconfig, u: User, u': User, w: World, qs: set<Query>)
    requires forall c: nat :: Get(u.modes, c) == Get(u'.modes, c)
    ensures SameModes(k, u, u', w, w, qs)
  {
    forall c: nat ensures ModeOf(k, u, c, w) == ModeOf(k, u', c, w) {
      ModeCongruent(k, u, u', c, w, w);
    }
  }

  // ----- Recursive evaluation -----

  /** Everything of rank below `n`, evaluated recursively. */
  ghost function Below(k: Kconfig, rk: Rank, u: User, n: nat): World
    decreases n, 1
  {
    World(
      (s: nat) => VisBelow(k, rk, u, n, s),
      (s: nat) => if rk(TriOf(s)) < n then TriStep(k, u, s, Below(k, rk, u, rk(TriOf(s)))) else TriVal(0, false),
      (s: nat) => if rk(StrOf(s)) < n then StrStep(k, u, s, Below(k, rk, u, rk(StrOf(s)))) else StrVal("", false),
      (c: nat) => CVisBelow(k, rk, u, n, c),
      (c: nat) => if rk(Sel(c)) < n then SelStep(k, u, c, Below(k, rk, u, rk(Sel(c)))) else None)
  }

  ghost function VisBelow(k: Kconfig, rk: Rank, u: User, n: nat, s: nat): Tri
    decreases n, 0
  {
    if rk(Vis(s)) < n then VisStep(k, u, s, Below(k, rk, u, rk(Vis(s)))) else 0
  }

  ghost function CVisBelow(k: Kconfig, rk: Rank, u: User, n: nat, c: nat): Tri
    decreases n, 0
  {
    if rk(CVis(c)) < n then CVisStep(k, u, c, Below(k, rk, u, rk(CVis(c)))) else 0
  }

  /** The value of every quantity, evaluated recursively. */
  ghost function Recursive(k: Kconfig, rk: Rank, u: User): World {
    World(
      (s: nat) => VisStep(k, u, s, Below(k, rk, u, rk(Vis(s)))),
      (s: nat) => TriStep(k, u, s, Below(k, rk, u, rk(TriOf(s)))),
      (s: nat) => StrStep(k, u, s, Below(k, rk, u, rk(StrOf(s)))),
      (c: nat) => CVisStep(k, u, c, Below(k, rk, u, rk(CVis(c)))),
      (c: nat) => SelStep(k, u, c, Below(k, rk, u, rk(Sel(c)))))
  }

  /** The quantities that other quantities can read. */
  predicate Readable(q: Query) { !q.Asg? && !q.CAsg? }

  /** `w` satisfies every equation. */
  ghost predicate Solves(k: Kconfig, u: User, w: World) {
    forall q :: Readable(q) ==> Look(w, q) == Step(k, u, q, w)
  }

  lemma BelowIsRecursive(k: Kconfig, rk: Rank, u: User, n: nat, q: Query)
    requires rk(q) < n
    ensures Look(Below(k, rk, u, n), q) == Look(Recursive(k, rk, u), q)
  {
    match q
    case Vis(s) => assert Below(k, rk, u, n).vis(s) == Recursive(k, rk, u).vis(s);
    case TriOf(s) => assert Below(k, rk, u, n).tri(s) == Recursive(k, rk, u).tri(s);
    case StrOf(s) => assert Below(k, rk, u, n).str(s) == Recursive(k, rk, u).str(s);
    case CVis(c) => assert Below(k, rk, u, n).cvis(c) == Recursive(k, rk, u).cvis(c);
    case Sel(c) => assert Below(k, rk, u, n).sel(c) == Recursive(k, rk, u).sel(c);
    case _ =>
  }

  lemma RecursiveIsStepBelow(k: Kconfig, rk: Rank, u: User, q: Query)
    requires Readable(q)
    ensures Look(Recursive(k, rk, u), q) == Step(k, u, q, Below(k, rk, u, rk(q)))
  {
  }

  lemma RecursiveAt(k: Kconfig, rk: Rank, u: User, q: Query)
    requires WellRanked(k, rk) && ChoicesOk(k) && ValidUser(k, u) && Readable(q)
    ensures Look(Recursive(k, rk, u), q) == Step(k, u, q, Recursive(k, rk, u))
  {
    var w, b := Recursive(k, rk, u), Below(k, rk, u, rk(q));
    forall r | r in Reads(k, q) ensures Look(b, r) == Look(w, r) {
      BelowIsRecursive(k, rk, u, rk(q), r);
    }
    StepCongruent(k, u, u, q, b, w);
    RecursiveIsStepBelow(k, rk, u, q);
  }

  /** Recursive evaluation satisfies every equation... */
  lemma RecursiveSolves(k: Kconfig, rk: Rank, u: User)
    requires WellRanked(k, rk) && ChoicesOk(k) && ValidUser(k, u)
    ensures Solves(k, u, Recursive(k, rk, u))
  {
    forall q | Readable(q) ensures Look(Recursive(k, rk, u), q) == Step(k, u, q, Recursive(k, rk, u)) {
      RecursiveAt(k, rk, u, q);
    }
  }

  /** ... and gives the only solution: what it computes does not depend on the rank. */
  lemma {:induction false} SolutionUnique(k: Kconfig, rk: Rank, u: User, w: World, w': World, q: Query)
    requires WellRanked(k, rk) && ChoicesOk(k) && ValidUser(k, u) && Readable(q)
    requires Solves(k, u, w) && Solves(k, u, w')
    ensures Look(w, q) == Look(w', q)
    decreases rk(q)
  {
    forall r | r in Reads(k, q) ensures Look(w, r) == Look(w', r) {
      if Readable(r) {
        SolutionUnique(k, rk, u, w, w', r);
      }
    }
    StepCongruent(k, u, u, q, w, w');
  }

  const NoWorld := World((s: nat) => 0 as Tri, (s: nat) => TriVal(0, false), (s: nat) => StrVal("", false),
                         (c: nat) => 0 as Tri, (c: nat) => None)

  /** The values of the configuration: the solution of its equations. */
  ghost function Eval(k: Kconfig, u: User): World {
    if exists w: World :: Solves(k, u, w) then var w: World :| Solves(k, u, w); w else NoWorld
  }

  lemma EvalSolves(k: Kconfig, rk: Rank, u: User)
    requires WellRanked(k, rk) && ChoicesOk(k) && ValidUser(k, u)
    ensures Solves(k, u, Eval(k, u))
  {
    RecursiveSolves(k, rk, u);
  }

  lemma EvalAt(k: Kconfig, rk: Rank, u: User, q: Query)
    requires WellRanked(k, rk) && ChoicesOk(k) && ValidUser(k, u) && Readable(q)
    ensures Look(Eval(k, u), q) == Step(k, u, q, Eval(k, u))
  {
    EvalSolves(k, rk, u);
  }

  /** Uncached recursive evaluation, with any rank, computes the values. */
  lemma EvalIsRecursive(k: Kconfig, rk: Rank, u: User, q: Query)
    requires WellRanked(k, rk) && ChoicesOk(k) && ValidUser(k, u) && Readable(q)
    ensures Look(Eval(k, u), q) == Look(Recursive(k, rk, u), q)
  {
    EvalSolves(k, rk, u);
    RecursiveSolves(k, rk, u);
    SolutionUnique(k, rk, u, Eval(k, u), Recursive(k, rk, u), q);
  }
}

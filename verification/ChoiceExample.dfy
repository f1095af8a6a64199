/**
  A configuration with a choice that has all the properties assumed elsewhere, and on it a
  file whose load does not forget what was set before.
 */
module ChoiceExample {
  import opened Model
  import opened Evaluation
  import opened Dependencies
  import opened Values
  import opened Engine
  import opened ConfigFile
  import opened RoundTrip

  /** A member of choice 0 with a prompt under the condition `p`. */
  function Member(name: string, p: Expr): SymbolDef {
    SymbolDef(name, TRISTATE, [p], [], [], N, N, p, Some(0), false)
  }

  /** MODULES is y.  A and B are members of a tristate choice, which may be optional; D is one
      with `depends on n`, in whose conditions nothing is left of the choice. */
  function Example(optional: bool): Kconfig {
    Kconfig(
      [Defaulting("MODULES", BOOL, 2), Member("A", Mode(0)), Member("B", Mode(0)), Member("D", N)],
      [ChoiceDef(TRISTATE, [Y], [], [1, 2, 3], optional)], Some(0), NoNumerals)
  }

  const Config := Example(false)

  function ConfigRank(q: Query): nat {
    match q
    case Vis(s) => if s == 0 then 0 else 5
    case TriOf(s) => if s == 0 then 1 else 7
    case StrOf(s) => if s == 0 then 2 else 8
    case Asg(s) => 9
    case CVis(c) => 4
    case Sel(c) => 6
    case CAsg(c) => 6
  }

  lemma ConfigReads(o: bool, s: nat)
    ensures ExprsReads(Example(o), Example(o).Sym(s).prompts) <= {CVis(0), TriOf(0)}
    ensures TypeReads(Example(o), s) <= {CVis(0), TriOf(0)} && AsgReads(Example(o), s) <= {CVis(0), TriOf(0)}
    ensures DefaultReads(Example(o), s) == {} && RangeReads(Example(o), s) == {}
    ensures s == 0 || s > 3 ==> ExprsReads(Example(o), Example(o).Sym(s).prompts) + AsgReads(Example(o), s) == {}
    ensures s == 0 || s > 3 ==> ExprReads(Example(o), Example(o).Sym(s).directDep) == {}
  {
    assert Example(o).Sym(0) == Example(o).symbols[0] && Example(o).Sym(1) == Example(o).symbols[1];
    assert Example(o).Sym(2) == Example(o).symbols[2] && Example(o).Sym(3) == Example(o).symbols[3];
    assert forall x :: x in Example(o).Sym(s).defaults ==>
      ExprReads(Example(o), x.value) == {} && ExprReads(Example(o), x.cond) == {};
  }

  lemma ConfigRanked(o: bool, q: Query, r: Query)
    requires r in Reads(Example(o), q)
    ensures ConfigRank(r) < ConfigRank(q)
  {
    if q.Vis? || q.TriOf? || q.StrOf? || q.Asg? {
      ConfigReads(o, q.s);
    } else {
      assert Example(o).Ch(q.c) == if q.c == 0 then Example(o).choices[0] else NoChoice;
    }
  }

  lemma ConfigSyms(o: bool, s: nat)
    ensures Example(o).Sym(s).choice == if 1 <= s <= 3 then Some(0) else None
    ensures Example(o).Sym(s).prompts == if s == 1 || s == 2 then [Mode(0)] else if s == 3 then [N] else []
    ensures 1 <= s <= 3 ==> Example(o).Sym(s).origType == TRISTATE
    ensures Example(o).Ch(s) == if s == 0 then Example(o).choices[0] else NoChoice
  {
    assert Example(o).Sym(0) == Example(o).symbols[0] && Example(o).Sym(1) == Example(o).symbols[1];
    assert Example(o).Sym(2) == Example(o).symbols[2] && Example(o).Sym(3) == Example(o).symbols[3];
  }

  lemma ConfigEdges(o: bool)
    ensures ChoiceEdges(Example(o)) && ProperChoice(Example(o), 0)
  {
    forall s: nat | Example(o).Sym(s).choice.Some?
      ensures C(0) in Deps(Example(o), S(s)) || NeverVisible(Example(o), s)
    {
      ConfigSyms(o, s);
      if s != 3 {
        assert Mode(0) in Example(o).Sym(s).prompts && C(0) in ExprItems(Mode(0));
      }
    }
    forall s: nat { ConfigSyms(o, s); }
  }

  lemma DeadSymbol(o: bool)
    ensures NeverVisible(Example(o), 3) && C(0) !in Deps(Example(o), S(3))
  {
    ConfigSyms(o, 3);
    var d := Example(o).Sym(3);
    assert d == Example(o).symbols[3];
    assert Conds(d.defaults) == [] && DefaultValues(d.defaults) == [] && RangeConds(d.ranges) == [];
    assert ExprsItems(d.prompts) == {} && ExprsItems([]) == {};
  }

  /** The assumptions of all theorems hold together, also for a choice with a symbol that can
      never be visible and does not depend on the choice. */
  lemma ConfigOk(o: bool)
    ensures ChoicesOk(Example(o)) && ChoiceEdges(Example(o)) && WellRanked(Example(o), ConfigRank)
    ensures ProperChoice(Example(o), 0)
    ensures NeverVisible(Example(o), 3) && C(0) !in Deps(Example(o), S(3))
  {
    forall q, r | r in Reads(Example(o), q) ensures ConfigRank(r) < ConfigRank(q) { ConfigRanked(o, q, r); }
    forall s: nat { ConfigSyms(o, s); }
    ConfigEdges(o);
    DeadSymbol(o);
  }

  /** With the choice in y mode and A or B as the user selection, that one is y. */
  lemma SelectedIsY(u: User, w: World)
    requires Solves(Config, u, w) && Get(u.modes, 0) == Some(2)
    requires Get(u.sels, 0) == Some(1) || Get(u.sels, 0) == Some(2)
    ensures w.tri(1).val == if Get(u.sels, 0) == Some(1) then 2 else 0
  {
    var k := Config;
    assert k.Sym(1) == k.symbols[1] && k.Sym(2) == k.symbols[2] && k.Ch(0) == k.choices[0];
    assert Look(w, CVis(0)) == Step(k, u, CVis(0), w);
    assert [Y][..0] == [] && MaxVal(k, u, [Y], w) == 2;
    assert ModeOf(k, u, 0, w) == 2;
    var es := [Mode(0)];
    assert es[..0] == [] && MaxVal(k, u, es, w) == 2;
    SolvesSymbol(k, u, w, 1);
    SolvesSymbol(k, u, w, 2);
    assert w.vis(1) == 2 && w.vis(2) == 2;
    assert Look(w, Sel(0)) == Step(k, u, Sel(0), w);
  }

  const OnlyA: seq<Line> := [Assign("A", "m")]

  /** The file sets only m on the choice. */
  lemma OnlyAIsOnlyM()
    ensures OnlyM(Config, OnlyA, 0) && LastMode(Config, OnlyA, 0) == Some(1)
    ensures LastVal(Config, OnlyA, 1) == Some(Level(1)) && LastVal(Config, OnlyA, 2) == None
  {
    assert "MODULES"[0] == 'M' && "A"[0] == 'A';
    assert LookupFrom(Config, "A", 1) == Some(1) && LookupFrom(Config, "A", 0) == Some(1);
    assert OnlyA[..0] == [];
    assert Assigned(Config, OnlyA[0]) == Some(Assignment(1, Level(1)));
  }

  /** The file is loaded with replace over two states that differ in which symbol was selected,
      and then the choice is set to y mode: the value of A depends on what was selected before. */
  lemma LoadRemembers(u1: User, u2: User, v1: User, v2: User)
    requires ValidUser(Config, v1) && Get(u1.sels, 0) == Some(1) && Replaced(Config, OnlyA, u1, v1)
    requires ValidUser(Config, v2) && Get(u2.sels, 0) == Some(2) && Replaced(Config, OnlyA, u2, v2)
    ensures v1.vals == v2.vals && v1.modes == v2.modes
    ensures Eval(Config, WithMode(Config, v1, 0, 2)).tri(1).val == 2
    ensures Eval(Config, WithMode(Config, v2, 0, 2)).tri(1).val == 0
  {
    LoadForgets(Config, OnlyA, u1, u2, v1, v2);
    AInYMode(u1, v1, 1);
    AInYMode(u2, v2, 2);
  }

  lemma AInYMode(u0: User, u: User, s: nat)
    requires s == 1 || s == 2
    requires ValidUser(Config, u) && Get(u0.sels, 0) == Some(s) && Replaced(Config, OnlyA, u0, u)
    ensures Eval(Config, WithMode(Config, u, 0, 2)).tri(1).val == if s == 1 then 2 else 0
  {
    var u' := WithMode(Config, u, 0, 2);
    SelectionStays(u0, u);
    ConfigOk(false);
    EvalSolves(Config, ConfigRank, u');
    SelectedIsY(u', Eval(Config, u'));
  }

  lemma SelectionStays(u0: User, u: User)
    requires ValidUser(Config, u) && Replaced(Config, OnlyA, u0, u)
    ensures var u' := WithMode(Config, u, 0, 2);
      Get(u'.sels, 0) == Get(u0.sels, 0) && Get(u'.modes, 0) == Some(2) && ValidUser(Config, u')
  {
    OnlyAIsOnlyM();
    ConfigSyms(false, 0);
    assert Get(u.sels, 0) == Get(u0.sels, 0);
  }

  /** The same in the caching engine: A is selected in one and B in another, both load the file,
      then the choice is set to y mode in both. */
  method HistoryMatters() returns (a: Tri, b: Tri)
    ensures a == 2 && b == 0
  {
    a := AfterLoad(1);
    b := AfterLoad(2);
  }

  /** Symbol `s` is selected, the file is loaded with replace, the mode is set to y. */
  method AfterLoad(s: nat) returns (v: Tri)
    requires s == 1 || s == 2
    ensures v == if s == 1 then 2 else 0
  {
    var kc := Selected(s);
    LoadOnlyA(kc, s);
    var _ := kc.SetMode(0, 2);
    assert ModeAcceptable(Config, 0, 2) by { ConfigSyms(false, 0); }
    var tv := kc.TriValue(1);
    v := tv.val;
    EvalSolves(Config, kc.rk, kc.user);
    SelectedIsY(kc.user, kc.Now());
  }

  method Selected(s: nat) returns (kc: Kconf)
    requires s == 1 || s == 2
    ensures fresh(kc) && kc.Valid() && kc.k == Config && Get(kc.user.sels, 0) == Some(s)
  {
    ConfigOk(false);
    kc := new Kconf(Config, ConfigRank);
    var _ := kc.SetValue(s, Level(2));
    ConfigSyms(false, s);
  }

  method LoadOnlyA(kc: Kconf, ghost s: nat)
    requires kc.Valid() && kc.k == Config && Get(kc.user.sels, 0) == Some(s)
    modifies kc`user, kc`cache, kc`symsSet, kc`choicesSet
    ensures kc.Valid() && Get(kc.user.sels, 0) == Some(s)
  {
    LoadConfig(kc, OnlyA, true);
    OnlyAIsOnlyM();
  }

  // ----- A mode that no file keeps -----

  /** The optional choice is set to m mode, and no symbol of it is set. */
  const OnlyMode := NoUser.(modes := map[0 := 1])

  lemma OnlyModeWorld(w: World)
    requires Solves(Example(true), OnlyMode, w)
    ensures ModeOf(Example(true), OnlyMode, 0, w) == 1 && ModeOf(Example(true), NoUser, 0, w) == 0
    ensures forall s :: s in Example(true).Ch(0).syms ==> w.tri(s).val == 0
  {
    var k, u := Example(true), OnlyMode;
    assert k.Ch(0) == k.choices[0] && k.Sym(0) == k.symbols[0];
    SolvesSymbol(k, u, w, 0);
    assert Conds(k.Sym(0).defaults) == [Y] && FirstOn(k, u, [Y], w) == 0 && w.vis(0) == 0;
    assert ModulesVal(k, w) == 2;
    assert Look(w, CVis(0)) == Step(k, u, CVis(0), w);
    assert [Y][..0] == [] && MaxVal(k, u, [Y], w) == 2;
    forall s | s in k.Ch(0).syms ensures w.tri(s).val == 0 { MemberIsN(w, s); }
  }

  lemma MemberIsN(w: World, s: nat)
    requires Solves(Example(true), OnlyMode, w) && ModeOf(Example(true), OnlyMode, 0, w) == 1
    requires s in Example(true).Ch(0).syms
    ensures w.tri(s).val == 0
  {
    ConfigSyms(true, 0);
    ConfigSyms(true, s);
    ConfigEdges(true);
    SolvesSymbol(Example(true), OnlyMode, w, s);
    ChoiceSymVisibility(Example(true), OnlyMode, 0, s, w);
  }

  /** The full file of that state does not bring the mode back. */
  lemma ModeLostExists(u0: User, u': User)
    requires ValidUser(Example(true), u')
    requires Replaced(Example(true), FullConfig(Example(true), Eval(Example(true), OnlyMode)), u0, u')
    ensures !SameState(Example(true), OnlyMode, u')
  {
    var k, u := Example(true), OnlyMode;
    var w := Eval(k, u);
    ConfigOk(true);
    ConfigSyms(true, 0);
    EvalSolves(k, ConfigRank, u);
    OnlyModeWorld(w);
    ExampleSavable(w);
    assert ModeLost(k, u, w, FullLine(k, w), 0);
    FullConfigRoundTrip(k, ConfigRank, u, u0, u');
  }

  lemma ExampleSavable(w: World)
    requires Solves(Example(true), OnlyMode, w)
    ensures Savable(Example(true), OnlyMode, w)
  {
    ConfigOk(true);
    ExampleGood();
    ExampleNames();
  }

  lemma ExampleGood()
    ensures GoodChoices(Example(true)) && ValidUser(Example(true), OnlyMode)
    ensures forall s: nat :: s < 4 ==> BoolTristate(Example(true).Sym(s).origType)
  {
    ConfigEdges(true);
    ConfigSyms(true, 0);
  }

  lemma ExampleNames()
    ensures NamesOk(Example(true))
  {
    var k := Example(true);
    assert "MODULES"[0] == 'M' && "A"[0] == 'A' && "B"[0] == 'B' && "D"[0] == 'D';
    forall s: nat | s < |k.symbols| ensures Lookup(k, k.Sym(s).name) == Some(s) {
      forall j | 0 <= j < s ensures k.symbols[j].name != k.symbols[s].name {
        assert k.symbols[j].name[0] != k.symbols[s].name[0];
      }
      FirstOfName(k, s, 0);
    }
  }
}

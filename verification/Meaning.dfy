/**
  What the values of a configuration mean to someone who reads the Kconfig files: each
  lemma characterises a value by the written properties alone, with the first active
  default or range given by its position and every case spelled out.
 */
module Meaning {
  import opened Model
  import opened Evaluation
  import opened Engine

  lemma At(k: Kconfig, u: User, w: World, q: Query)
    requires Solves(k, u, w) && Readable(q)
    ensures Look(w, q) == Step(k, u, q, w)
  {
  }

  // ----- Which default and which range are in effect -----

  ghost predicate DefaultActive(k: Kconfig, u: User, s: nat, w: World, i: nat) {
    var ds := k.Sym(s).defaults;
    && i < |ds| && ExprVal(k, u, ds[i].cond, w) != 0
    && forall j :: 0 <= j < i ==> ExprVal(k, u, ds[j].cond, w) == 0
  }

  ghost predicate RangeActive(k: Kconfig, u: User, s: nat, w: World, i: nat) {
    var rs := k.Sym(s).ranges;
    && i < |rs| && ExprVal(k, u, rs[i].cond, w) != 0
    && forall j :: 0 <= j < i ==> ExprVal(k, u, rs[j].cond, w) == 0
  }

  ghost predicate SomeDefault(k: Kconfig, u: User, s: nat, w: World) { exists i: nat :: DefaultActive(k, u, s, w, i) }

  ghost predicate SomeRange(k: Kconfig, u: User, s: nat, w: World) { exists i: nat :: RangeActive(k, u, s, w, i) }

  lemma FirstDefault(k: Kconfig, u: User, s: nat, w: World)
    ensures var i, ds := FirstOn(k, u, Conds(k.Sym(s).defaults), w), k.Sym(s).defaults;
      && (i < |ds| ==> DefaultActive(k, u, s, w, i))
      && (i == |ds| ==> !SomeDefault(k, u, s, w))
      && forall j: nat :: DefaultActive(k, u, s, w, j) ==> j == i
  {
    var ds := k.Sym(s).defaults;
    assert forall j :: 0 <= j < |ds| ==> Conds(ds)[j] == ds[j].cond;
  }

  lemma FirstRange(k: Kconfig, u: User, s: nat, w: World)
    ensures var i, rs := FirstOn(k, u, RangeConds(k.Sym(s).ranges), w), k.Sym(s).ranges;
      && (i < |rs| ==> RangeActive(k, u, s, w, i))
      && (i == |rs| ==> !SomeRange(k, u, s, w))
      && forall j: nat :: RangeActive(k, u, s, w, j) ==> j == i
  {
    var rs := k.Sym(s).ranges;
    assert forall j :: 0 <= j < |rs| ==> RangeConds(rs)[j] == rs[j].cond;
  }

  /** The text of the first active default; empty text if none is active. */
  ghost predicate IsDefaultText(k: Kconfig, u: User, s: nat, w: World, text: string) {
    var ds := k.Sym(s).defaults;
    if SomeDefault(k, u, s, w) then
      exists i: nat :: DefaultActive(k, u, s, w, i) && text == DefaultText(ds[i].value, w)
    else text == ""
  }

  lemma DefaultTextIs(k: Kconfig, u: User, s: nat, w: World, text: string)
    requires IsDefaultText(k, u, s, w, text)
    ensures DefaultStr(k, u, s, w) == if SomeDefault(k, u, s, w) then Some(text) else None
  {
    FirstDefault(k, u, s, w);
  }

  // ----- Numbers -----

  /** `n` is the number that the text of an int or hex symbol stands for: other text
      stands for 0. */
  predicate StandsFor(k: Kconfig, t: Type, text: string, n: int) {
    var p := k.num.parse(text, if t == HEX then 16 else 10);
    if p.Some? then n == p.value else n == 0
  }

  function Dist(a: int, b: int): int { if a < b then b - a else a - b }

  /** Numerals read back what they print. */
  ghost predicate ReadBack(k: Kconfig) {
    && (forall n :: k.num.parse(k.num.dec(n), 10) == Some(n))
    && (forall n :: k.num.parse(k.num.hex(n), 16) == Some(n))
  }

  /** The active range of the symbol, if any, and its bounds. */
  ghost predicate RangeIs(k: Kconfig, u: User, s: nat, w: World, i: nat, low: int, high: int) {
    var d := k.Sym(s);
    && RangeActive(k, u, s, w, i)
    && StandsFor(k, d.origType, SymStr(d.ranges[i].low, w), low)
    && StandsFor(k, d.origType, SymStr(d.ranges[i].high, w), high)
  }

  lemma RangeGives(k: Kconfig, u: User, s: nat, w: World)
    requires IntHex(k.Sym(s).origType)
    ensures !SomeRange(k, u, s, w) ==> ActiveRange(k, u, s, w) == Unbounded
    ensures forall i: nat, low, high ::
      RangeIs(k, u, s, w, i, low, high) ==> ActiveRange(k, u, s, w) == Bounds(low, high)
  {
    FirstRange(k, u, s, w);
  }

  /** A visible symbol has a user value. */
  predicate HasUserText(u: User, s: nat, w: World) {
    w.vis(s) != 0 && s in u.vals && u.vals[s].Text? && u.vals[s].s != ""
  }

  /** A text that is limited to a range: kept if its number is in the range, and otherwise
      replaced by the nearest number that is. */
  lemma {:induction false} ClampIs(k: Kconfig, t: Type, text: string, low: int, high: int, n: int, m: int)
    requires ReadBack(k) && IntHex(t) && StandsFor(k, t, text, n)
    requires StandsFor(k, t, Clamp(k, t, text, Bounds(low, high)), m)
    ensures var v := Clamp(k, t, text, Bounds(low, high));
      && (low <= n <= high ==> v == text && m == n)
      && (!(low <= n <= high) ==> m == (if n < low then low else high))
      && (!(low <= n <= high) ==> v == if t == HEX then k.num.hex(m) else k.num.dec(m))
  {
  }

  lemma {:induction false} FallsBack(k: Kconfig, u: User, s: nat, w: World, i: nat, low: int, high: int, text: string)
    requires Solves(k, u, w) && IntHex(k.Sym(s).origType) && RangeIs(k, u, s, w, i, low, high)
    requires HasUserText(u, s, w) ==>
      forall x :: StandsFor(k, k.Sym(s).origType, u.vals[s].s, x) ==> !(low <= x <= high)
    requires IsDefaultText(k, u, s, w, text)
    ensures w.str(s).val == Clamp(k, k.Sym(s).origType, text, Bounds(low, high))
  {
    At(k, u, w, StrOf(s));
    RangeGives(k, u, s, w);
    DefaultTextIs(k, u, s, w, text);
    if HasUserText(u, s, w) {
      assert StandsFor(k, k.Sym(s).origType, u.vals[s].s, NumOr0(k, u.vals[s].s, Base(k.Sym(s).origType)));
    }
    assert !UserNumberInUse(k, u, s, w);
  }

  /** An int or hex symbol whose user value, if it has one, is not in the active range: its
      default is kept if it is in the range, and otherwise replaced by the nearest number that
      is.  If the range is empty, by the lower bound for numbers below it and by the upper
      bound for the others. */
  lemma DefaultInRange(k: Kconfig, u: User, s: nat, w: World, i: nat, low: int, high: int, text: string, n: int,
    m: int)
    requires Solves(k, u, w) && ReadBack(k) && IntHex(k.Sym(s).origType)
    requires RangeIs(k, u, s, w, i, low, high)
    requires HasUserText(u, s, w) ==>
      forall x :: StandsFor(k, k.Sym(s).origType, u.vals[s].s, x) ==> !(low <= x <= high)
    requires IsDefaultText(k, u, s, w, text) && StandsFor(k, k.Sym(s).origType, text, n)
    requires StandsFor(k, k.Sym(s).origType, w.str(s).val, m)
    ensures low <= n <= high ==> w.str(s).val == text
    ensures low <= high ==> low <= m <= high && forall x :: low <= x <= high ==> Dist(m, n) <= Dist(x, n)
    ensures low > high ==> m == if n < low then low else high
    ensures !(low <= n <= high) ==> w.str(s).val == if k.Sym(s).origType == HEX then k.num.hex(m) else k.num.dec(m)
  {
    FallsBack(k, u, s, w, i, low, high, text);
    ClampIs(k, k.Sym(s).origType, text, low, high, n, m);
  }

  /** Without an active range the default is taken as it is. */
  lemma DefaultUnlimited(k: Kconfig, u: User, s: nat, w: World, text: string)
    requires Solves(k, u, w) && IntHex(k.Sym(s).origType)
    requires !SomeRange(k, u, s, w) && !HasUserText(u, s, w) && IsDefaultText(k, u, s, w, text)
    ensures w.str(s).val == text
  {
    At(k, u, w, StrOf(s));
    RangeGives(k, u, s, w);
    DefaultTextIs(k, u, s, w, text);
  }

  /** A user value of a visible symbol that no range excludes is taken as it was written. */
  lemma UserNumberKept(k: Kconfig, u: User, s: nat, w: World)
    requires Solves(k, u, w) && IntHex(k.Sym(s).origType) && HasUserText(u, s, w)
    requires forall i: nat, low, high, x ::
      RangeIs(k, u, s, w, i, low, high) && StandsFor(k, k.Sym(s).origType, u.vals[s].s, x) ==> low <= x <= high
    ensures w.str(s).val == u.vals[s].s
  {
    At(k, u, w, StrOf(s));
    FirstRange(k, u, s, w);
    RangeGives(k, u, s, w);
    var d := k.Sym(s);
    var i := FirstOn(k, u, RangeConds(d.ranges), w);
    var x := NumOr0(k, u.vals[s].s, Base(d.origType));
    assert StandsFor(k, d.origType, u.vals[s].s, x);
    if i < |d.ranges| {
      var low := NumOr0(k, SymStr(d.ranges[i].low, w), Base(d.origType));
      var high := NumOr0(k, SymStr(d.ranges[i].high, w), Base(d.origType));
      assert RangeIs(k, u, s, w, i, low, high);
      assert low <= x <= high;
    }
  }

  /** The value of a string or key symbol: the user value if it is visible and has one, and
      otherwise the text of its first active default. */
  lemma StringValueIs(k: Kconfig, u: User, s: nat, w: World, text: string)
    requires Solves(k, u, w) && k.Sym(s).origType in {STRING, KEY} && IsDefaultText(k, u, s, w, text)
    ensures w.str(s).val == if w.vis(s) != 0 && s in u.vals && u.vals[s].Text? then u.vals[s].s else text
  {
    At(k, u, w, StrOf(s));
    DefaultTextIs(k, u, s, w, text);
  }

  /** The other types: levels are written n, m and y, and an undefined symbol as its name. */
  lemma LevelText(k: Kconfig, u: User, s: nat, w: World)
    requires Solves(k, u, w)
    ensures k.Sym(s).origType == UNKNOWN ==> w.str(s).val == k.Sym(s).name
    ensures BoolTristate(k.Sym(s).origType) ==>
      && (w.str(s).val == "n" <==> w.tri(s).val == 0)
      && (w.str(s).val == "m" <==> w.tri(s).val == 1)
      && (w.str(s).val == "y" <==> w.tri(s).val == 2)
  {
    At(k, u, w, StrOf(s));
  }

  /** Which symbols go into .config: of bool and tristate ones those that are visible or not
      n, of the others those that are visible or have an active default, and never the
      symbols that get their value from the environment. */
  lemma WrittenExactly(k: Kconfig, u: User, s: nat, w: World)
    requires Solves(k, u, w)
    ensures BoolTristate(k.Sym(s).origType) ==> (w.str(s).write <==> w.vis(s) != 0 || w.tri(s).val != 0)
    ensures k.Sym(s).origType in {STRING, INT, HEX, KEY} ==>
      (w.str(s).write <==> !k.Sym(s).auto && (w.vis(s) != 0 || SomeDefault(k, u, s, w)))
    ensures k.Sym(s).origType == UNKNOWN ==> !w.str(s).write
  {
    At(k, u, w, StrOf(s));
    At(k, u, w, TriOf(s));
    FirstDefault(k, u, s, w);
  }

  // ----- Levels -----

  ghost predicate DefaultReaching(k: Kconfig, u: User, s: nat, w: World, t: Tri) {
    var ds := k.Sym(s).defaults;
    exists i: nat :: DefaultActive(k, u, s, w, i)
      && ExprVal(k, u, ds[i].value, w) >= t && ExprVal(k, u, ds[i].cond, w) >= t
  }

  /** The value of a symbol outside choices reaches `t`, leaving aside that m can be promoted:
      it is selected to `t`, or its user value and its visibility reach `t`, or, if it has no
      user value in use, it is implied to `t` with its direct dependency not n, or the value
      and the condition of its first active default reach `t`. */
  ghost predicate Reaches(k: Kconfig, u: User, s: nat, w: World, t: Tri) {
    var d, used := k.Sym(s), w.vis(s) != 0 && s in u.vals && u.vals[s].Level?;
    || ExprVal(k, u, d.revDep, w) >= t
    || (used && u.vals[s].t >= t && w.vis(s) >= t)
    || (!used && ExprVal(k, u, d.weakRevDep, w) >= t && ExprVal(k, u, d.directDep, w) != 0)
    || (!used && DefaultReaching(k, u, s, w, t))
  }

  lemma DefaultReaches(k: Kconfig, u: User, s: nat, w: World, t: Tri)
    requires t != 0
    ensures DefaultTri(k, u, s, w) >= t <==> DefaultReaching(k, u, s, w, t)
  {
    FirstDefault(k, u, s, w);
  }

  /** MODULES is n or undefined. */
  predicate NoModules(k: Kconfig, w: World) { k.modules.None? || w.tri(k.modules.value).val == 0 }

  /** The value of a bool or tristate symbol outside choices: m becomes y where m is no value
      of the type and where the symbol is implied to y. */
  lemma PlainLevel(k: Kconfig, u: User, s: nat, w: World)
    requires Solves(k, u, w) && BoolTristate(k.Sym(s).origType) && k.Sym(s).choice.None?
    ensures w.tri(s).val >= 1 <==> Reaches(k, u, s, w, 1)
    ensures w.tri(s).val == 2 <==>
      || Reaches(k, u, s, w, 2)
      || (Reaches(k, u, s, w, 1)
          && (k.Sym(s).origType == BOOL || NoModules(k, w) || ExprVal(k, u, k.Sym(s).weakRevDep, w) == 2))
  {
    At(k, u, w, TriOf(s));
    DefaultReaches(k, u, s, w, 1);
    DefaultReaches(k, u, s, w, 2);
  }

  /** A symbol in a choice: y if it is the selection and its visibility is y; m if its
      visibility is m and the user gave it m or y. */
  lemma ChoiceLevel(k: Kconfig, u: User, s: nat, w: World)
    requires Solves(k, u, w) && BoolTristate(k.Sym(s).origType) && k.Sym(s).choice.Some?
    ensures w.tri(s).val == 2 <==> w.vis(s) == 2 && w.sel(k.Sym(s).choice.value) == Some(s)
    ensures w.tri(s).val == 1 <==> w.vis(s) == 1 && s in u.vals && u.vals[s].Level? && u.vals[s].t != 0
  {
    At(k, u, w, TriOf(s));
  }

  // ----- Visibility -----

  lemma {:induction false} MaxIs(k: Kconfig, u: User, es: seq<Expr>, w: World, t: Tri)
    requires t != 0
    ensures MaxVal(k, u, es, w) >= t <==> exists e :: e in es && ExprVal(k, u, e, w) >= t
  {
    if es != [] {
      var front, last := es[..|es| - 1], es[|es| - 1];
      MaxIs(k, u, front, w, t);
      assert es == front + [last];
      assert last in es;
      assert forall e :: e in es <==> e in front || e == last;
    }
  }

  /** Some prompt condition reaches `t`. */
  ghost predicate Prompted(k: Kconfig, u: User, prompts: seq<Expr>, w: World, t: Tri) {
    exists e :: e in prompts && ExprVal(k, u, e, w) >= t
  }

  /** The visibility of a symbol: the best of its prompt conditions, with m promoted to y
      where m is no value of the type; but in a tristate choice, a symbol that is not
      tristate is visible in y mode only, and a tristate one needs a y prompt in y mode. */
  lemma VisibilityIs(k: Kconfig, u: User, s: nat, w: World)
    requires Solves(k, u, w)
    ensures var d := k.Sym(s);
      var inY := d.choice.Some? && ModeOf(k, u, d.choice.value, w) == 2;
      var other := d.choice.Some? && k.Ch(d.choice.value).origType == TRISTATE && d.origType != TRISTATE && !inY;
      && (w.vis(s) != 0 <==>
            && Prompted(k, u, d.prompts, w, 1) && !other
            && (d.origType == TRISTATE && inY ==> Prompted(k, u, d.prompts, w, 2)))
      && (w.vis(s) == 1 <==>
            && Prompted(k, u, d.prompts, w, 1) && !Prompted(k, u, d.prompts, w, 2)
            && d.origType == TRISTATE && !inY && !NoModules(k, w))
  {
    At(k, u, w, Vis(s));
    MaxIs(k, u, k.Sym(s).prompts, w, 1);
    MaxIs(k, u, k.Sym(s).prompts, w, 2);
  }

  /** The visibility of a choice, and its mode: at least m unless it is optional, at least
      what the user gave it, at most its visibility, and y instead of m where m is no value
      of the type. */
  lemma ModeIs(k: Kconfig, u: User, c: nat, w: World)
    requires Solves(k, u, w)
    ensures var d := k.Ch(c);
      var tristate := d.origType == TRISTATE && !NoModules(k, w);
      var isBool := d.origType == BOOL || (d.origType == TRISTATE && NoModules(k, w));
      var mode := ModeOf(k, u, c, w);
      && (w.cvis(c) != 0 <==> Prompted(k, u, d.prompts, w, 1))
      && (w.cvis(c) == 1 <==> Prompted(k, u, d.prompts, w, 1) && !Prompted(k, u, d.prompts, w, 2) && tristate)
      && (mode != 0 <==> w.cvis(c) != 0 && (!d.isOptional || (c in u.modes && u.modes[c] != 0)))
      && (mode == 2 <==> mode != 0 && (isBool || (w.cvis(c) == 2 && c in u.modes && u.modes[c] == 2)))
  {
    At(k, u, w, CVis(c));
    MaxIs(k, u, k.Ch(c).prompts, w, 1);
    MaxIs(k, u, k.Ch(c).prompts, w, 2);
  }

  /** Without MODULES nothing is m. */
  lemma NothingIsM(k: Kconfig, u: User, w: World)
    requires Solves(k, u, w) && NoModules(k, w)
    ensures forall s: nat :: w.vis(s) != 1 && w.tri(s).val != 1
    ensures forall c: nat :: BoolTristate(k.Ch(c).origType) ==> ModeOf(k, u, c, w) != 1
  {
    forall s: nat ensures w.vis(s) != 1 && w.tri(s).val != 1 {
      VisibilityIs(k, u, s, w);
      At(k, u, w, TriOf(s));
    }
    forall c: nat | BoolTristate(k.Ch(c).origType) ensures ModeOf(k, u, c, w) != 1 {
      ModeIs(k, u, c, w);
    }
  }

  // ----- Selections -----

  /** The default selection: the first default whose condition is not n and whose symbol is
      visible. */
  ghost predicate FirstApplicable(k: Kconfig, u: User, ds: seq<ChoiceDefault>, w: World, i: nat) {
    && i < |ds| && ExprVal(k, u, ds[i].cond, w) != 0 && w.vis(ds[i].sym) != 0
    && forall j :: 0 <= j < i ==> ExprVal(k, u, ds[j].cond, w) == 0 || w.vis(ds[j].sym) == 0
  }

  lemma {:induction false} DefaultSelectionAt(k: Kconfig, u: User, ds: seq<ChoiceDefault>, w: World) returns (i: nat)
    ensures i <= |ds|
    ensures i < |ds| ==> FirstApplicable(k, u, ds, w, i) && DefaultSelection(k, u, ds, w) == Some(ds[i].sym)
    ensures i == |ds| ==> DefaultSelection(k, u, ds, w) == None
    ensures i == |ds| ==> forall j :: 0 <= j < |ds| ==> ExprVal(k, u, ds[j].cond, w) == 0 || w.vis(ds[j].sym) == 0
  {
    if ds == [] || (ExprVal(k, u, ds[0].cond, w) != 0 && w.vis(ds[0].sym) != 0) {
      i := 0;
    } else {
      var j := DefaultSelectionAt(k, u, ds[1..], w);
      i := j + 1;
      assert forall m :: 1 <= m < |ds| ==> ds[m] == ds[1..][m - 1];
    }
  }

  lemma {:induction false} FirstVisibleAt(syms: seq<nat>, w: World) returns (i: nat)
    ensures i <= |syms| && forall j :: 0 <= j < i ==> w.vis(syms[j]) == 0
    ensures FirstVisible(syms, w) == if i < |syms| then Some(syms[i]) else None
    ensures i < |syms| ==> w.vis(syms[i]) != 0
  {
    if syms == [] || w.vis(syms[0]) != 0 {
      i := 0;
    } else {
      var j := FirstVisibleAt(syms[1..], w);
      i := j + 1;
      assert forall m :: 1 <= m < |syms| ==> syms[m] == syms[1..][m - 1];
    }
  }

  /** Symbol `x` is the one that the defaults of the choice select. */
  ghost predicate SelectedByDefault(k: Kconfig, u: User, c: nat, w: World, x: nat) {
    var d := k.Ch(c);
    || (exists i: nat :: FirstApplicable(k, u, d.defaults, w, i) && x == d.defaults[i].sym)
    || ((forall i: nat :: !FirstApplicable(k, u, d.defaults, w, i))
        && exists i :: 0 <= i < |d.syms| && x == d.syms[i] && w.vis(x) != 0
             && forall j :: 0 <= j < i ==> w.vis(d.syms[j]) == 0)
  }

  lemma SelectedByDefaultIs(k: Kconfig, u: User, c: nat, w: World, x: nat)
    ensures SelectedByDefault(k, u, c, w, x) <==> SelectionFromDefaults(k, u, c, w) == Some(x)
  {
    var i := DefaultSelectionAt(k, u, k.Ch(c).defaults, w);
    var j := FirstVisibleAt(k.Ch(c).syms, w);
    if i < |k.Ch(c).defaults| {
      assert forall m: nat :: FirstApplicable(k, u, k.Ch(c).defaults, w, m) ==> m == i;
    } else {
      assert forall m: nat :: !FirstApplicable(k, u, k.Ch(c).defaults, w, m);
    }
  }

  /** The selection of a choice in y mode: the user's symbol if it is visible, else that of
      the first applicable default, else the first visible symbol in the order of the choice. */
  lemma SelectionIs(k: Kconfig, u: User, c: nat, w: World, x: nat)
    requires Solves(k, u, w)
    ensures var chosen := c in u.sels && w.vis(u.sels[c]) != 0;
      w.sel(c) == Some(x) <==>
        && ModeOf(k, u, c, w) == 2
        && if chosen then x == u.sels[c] else SelectedByDefault(k, u, c, w, x)
  {
    At(k, u, w, Sel(c));
    SelectedByDefaultIs(k, u, c, w, x);
  }

  /** The modes that set_value() can give to a choice. */
  ghost predicate ModeReachable(k: Kconfig, u: User, c: nat, v: Tri) {
    exists t: Tri :: ModeAcceptable(k, c, t) && ModeAfterSet(k, u, c, t) == v
  }

  ghost function ModeAfterSet(k: Kconfig, u: User, c: nat, t: Tri): Tri {
    ModeOf(k, WithMode(k, u, c, t), c, Eval(k, WithMode(k, u, c, t)))
  }

  /** Nothing of lower rank than the visibility of a choice notices a change of its mode. */
  lemma {:induction false} BelowMode(k: Kconfig, rk: Rank, u: User, c: nat, t: Tri, w: World, w': World, q: Query)
    requires ChoicesOk(k) && WellRanked(k, rk) && ValidUser(k, u) && ModeAcceptable(k, c, t)
    requires Solves(k, u, w) && Solves(k, WithMode(k, u, c, t), w')
    requires Readable(q) && rk(q) <= rk(CVis(c))
    ensures Look(w', q) == Look(w, q)
    decreases rk(q)
  {
    var u' := WithMode(k, u, c, t);
    ReadsUnder(k, rk, q);
    forall r | r in Reads(k, q) ensures Look(w', r) == Look(w, r) {
      if Readable(r) { BelowMode(k, rk, u, c, t, w, w', r); }
    }
    StepCongruent(k, u', u, q, w', w);
  }

  /** The mode after setting it: raised to m if the choice is not optional, limited by the
      visibility, and m promoted for bool choices. */
  function ModeGiven(k: Kconfig, c: nat, w: World, t: Tri): Tri {
    var v := Min(if k.Ch(c).isOptional || t != 0 then t else 1, w.cvis(c));
    if v == 1 && ChoiceType(k, c, w) == BOOL then 2 else v
  }

  lemma ModeAfterSetIs(k: Kconfig, rk: Rank, u: User, c: nat, t: Tri)
    requires ChoicesOk(k) && WellRanked(k, rk) && ValidUser(k, u) && ModeAcceptable(k, c, t)
    ensures ModeAfterSet(k, u, c, t) == ModeGiven(k, c, Eval(k, u), t)
  {
    var u' := WithMode(k, u, c, t);
    EvalSolves(k, rk, u);
    EvalSolves(k, rk, u');
    BelowMode(k, rk, u, c, t, Eval(k, u), Eval(k, u'), CVis(c));
    ReadsUnder(k, rk, CVis(c));
    forall r | r in ModulesRead(k, k.Ch(c).origType) ensures Look(Eval(k, u'), r) == Look(Eval(k, u), r) {
      BelowMode(k, rk, u, c, t, Eval(k, u), Eval(k, u'), r);
    }
    ModulesCongruent(k, k.Ch(c).origType, Eval(k, u'), Eval(k, u));
  }

  lemma ModesGiven(k: Kconfig, c: nat, w: World, v: Tri)
    requires BoolTristate(k.Ch(c).origType) && w.cvis(c) != 0
    requires w.cvis(c) == 1 ==> ChoiceType(k, c, w) == TRISTATE
    ensures v in CAsgStep(k, c, w) <==>
      || v == ModeGiven(k, c, w, 0) || v == ModeGiven(k, c, w, 2)
      || (k.Ch(c).origType == TRISTATE && v == ModeGiven(k, c, w, 1))
  {
  }

  /** Choice.assignable lists exactly the modes that set_value() can give a visible choice. */
  lemma ChoiceAssignableExact(k: Kconfig, rk: Rank, u: User, c: nat, v: Tri)
    requires ChoicesOk(k) && WellRanked(k, rk) && ValidUser(k, u)
    requires BoolTristate(k.Ch(c).origType) && Eval(k, u).cvis(c) != 0
    ensures v in CAsgStep(k, c, Eval(k, u)) <==> ModeReachable(k, u, c, v)
  {
    var w := Eval(k, u);
    EvalAt(k, rk, u, CVis(c));
    ModesGiven(k, c, w, v);
    forall t: Tri | ModeAcceptable(k, c, t) ensures ModeAfterSet(k, u, c, t) == ModeGiven(k, c, w, t) {
      ModeAfterSetIs(k, rk, u, c, t);
    }
    assert ModeAcceptable(k, c, 0) && ModeAcceptable(k, c, 2);
    assert ModeAcceptable(k, c, 1) <==> k.Ch(c).origType == TRISTATE;
  }

  /** Symbol.assignable is in ascending order, and empty for invisible symbols and for other
      types.  A symbol of a choice, which nothing selects or implies, can only be made the
      selection in y mode, and n or m where its visibility is m. */
  lemma AssignableForm(k: Kconfig, u: User, s: nat, w: World)
    ensures var d, vs := k.Sym(s), AsgStep(k, u, s, w);
      && (forall i, j :: 0 <= i < j < |vs| ==> vs[i] < vs[j])
      && (vs == [] <==> !(d.origType == BOOL || d.origType == TRISTATE) || w.vis(s) == 0)
      && (vs != [] && d.choice.Some? && ExprVal(k, u, d.revDep, w) == ExprVal(k, u, d.weakRevDep, w) == 0 ==>
            vs == if w.vis(s) == 2 then [2] else [0, 1])
  {
  }

  // ----- Expressions -----

  /** && reaches a level where both sides do, || where one does, and ! turns the levels over. */
  lemma ConnectivesMean(k: Kconfig, u: User, a: Expr, b: Expr, w: World, t: Tri)
    ensures ExprVal(k, u, And(a, b), w) >= t <==> ExprVal(k, u, a, w) >= t && ExprVal(k, u, b, w) >= t
    ensures ExprVal(k, u, Or(a, b), w) >= t <==> ExprVal(k, u, a, w) >= t || ExprVal(k, u, b, w) >= t
    ensures ExprVal(k, u, Not(a), w) >= t <==> ExprVal(k, u, a, w) <= 2 - t
  {
  }

  /** `a` comes before `b` in a dictionary: it is a proper prefix of `b`, or has the smaller
      character where they first differ. */
  ghost predicate Before(a: string, b: string) {
    exists i: nat :: DifferAt(a, b, i) && i < |b| && (i == |a| || a[i] < b[i])
  }

  /** The texts agree up to position `i`. */
  ghost predicate DifferAt(a: string, b: string, i: nat) { i <= |a| && i <= |b| && a[..i] == b[..i] }

  lemma {:induction false} StrCmpIs(a: string, b: string)
    ensures StrCmp(a, b) == 0 <==> a == b
    ensures StrCmp(a, b) < 0 <==> Before(a, b)
    ensures StrCmp(a, b) > 0 <==> Before(b, a)
  {
    assert DifferAt(a, b, 0) && DifferAt(b, a, 0);
    if a != [] && b != [] && a[0] == b[0] {
      StrCmpIs(a[1..], b[1..]);
      assert a == [a[0]] + a[1..] && b == [b[0]] + b[1..];
      BeforeTail(a, b);
      BeforeTail(b, a);
    }
  }

  lemma {:induction false} BeforeTail(a: string, b: string)
    requires a != [] && b != [] && a[0] == b[0]
    ensures Before(a, b) <==> Before(a[1..], b[1..])
  {
    if Before(a, b) {
      var i: nat :| DifferAt(a, b, i) && i < |b| && (i == |a| || a[i] < b[i]);
      assert i > 0;
      assert a[1..][..i - 1] == a[..i][1..] && b[1..][..i - 1] == b[..i][1..];
      assert DifferAt(a[1..], b[1..], i - 1);
    }
    if Before(a[1..], b[1..]) {
      var i: nat :| DifferAt(a[1..], b[1..], i) && i < |b[1..]| && (i == |a[1..]| || a[1..][i] < b[1..][i]);
      assert a[..i + 1] == [a[0]] + a[1..][..i] && b[..i + 1] == [b[0]] + b[1..][..i];
      assert DifferAt(a, b, i + 1);
    }
  }

  /** A symbol in a comparison has the number `n`: its level, or what its text reads as. */
  predicate NumberIs(k: Kconfig, x: Sym, w: World, n: int) {
    var t := TypeOf(k, x);
    if t == BOOL || t == TRISTATE then n == SymTri(x, w)
    else k.num.parse(SymStr(x, w), if t == HEX then 16 else if t == INT then 10 else 0) == Some(n)
  }

  /** Comparison as texts: two strings, two keys, and whenever one side is no number. */
  ghost predicate AsText(k: Kconfig, a: Sym, b: Sym, w: World) {
    || (TypeOf(k, a) == STRING && TypeOf(k, b) == STRING)
    || (TypeOf(k, a) == KEY && TypeOf(k, b) == KEY)
    || (forall n :: !NumberIs(k, a, w, n))
    || (forall n :: !NumberIs(k, b, w, n))
  }

  /** A relation is y or n, and means the order of numbers or the order of texts. */
  lemma RelationMeans(k: Kconfig, u: User, rel: Relation, a: Sym, b: Sym, w: World)
    ensures ExprVal(k, u, Rel(rel, a, b), w) in {0, 2}
    ensures AsText(k, a, b, w) ==>
      var s, t := SymStr(a, w), SymStr(b, w);
      ExprVal(k, u, Rel(rel, a, b), w) == 2 <==>
        match rel
        case EQUAL => s == t
        case UNEQUAL => s != t
        case LESS => Before(s, t)
        case LESS_EQUAL => !Before(t, s)
        case GREATER => Before(t, s)
        case GREATER_EQUAL => !Before(s, t)
    ensures !AsText(k, a, b, w) ==>
      forall m, n :: NumberIs(k, a, w, m) && NumberIs(k, b, w, n) ==>
        (ExprVal(k, u, Rel(rel, a, b), w) == 2 <==>
          match rel
          case EQUAL => m == n
          case UNEQUAL => m != n
          case LESS => m < n
          case LESS_EQUAL => m <= n
          case GREATER => m > n
          case GREATER_EQUAL => m >= n)
  {
    StrCmpIs(SymStr(a, w), SymStr(b, w));
    NumberAs(k, a, w);
    NumberAs(k, b, w);
  }

  lemma NumberAs(k: Kconfig, x: Sym, w: World)
    ensures SymNum(k, x, w).Some? ==> NumberIs(k, x, w, SymNum(k, x, w).value)
    ensures forall n :: NumberIs(k, x, w, n) ==> SymNum(k, x, w) == Some(n)
  {
  }

  // ----- Assignments -----

  /** Which values set_value() takes: for bool and tristate symbols the levels of the type, as
      numbers or as the texts n, m and y; for int symbols decimal numbers, for hex symbols
      hexadecimal ones that are not negative, and any text for strings and keys.  The value
      is kept as it is given, except that a text for a level becomes the level. */
  lemma SetTakes(k: Kconfig, u: User, s: nat, v: UserVal)
    ensures var t, u' := k.Sym(s).origType, WithValue(k, u, s, v);
      var l: int := match v
        case Level(l) => l
        case Text(x) => if x == "n" then 0 else if x == "m" then 1 else if x == "y" then 2 else 3;
      && (t == BOOL ==>
            if l == 0 || l == 2 then s in u'.vals && u'.vals[s] == Level(l) else u' == u)
      && (t == TRISTATE ==> if l <= 2 then s in u'.vals && u'.vals[s] == Level(l) else u' == u)
      && (!BoolTristate(t) ==>
            if || (v.Text? && t in {STRING, KEY})
               || (v.Text? && t == INT && k.num.parse(v.s, 10).Some?)
               || (v.Text? && t == HEX && k.num.parse(v.s, 16).Some? && k.num.parse(v.s, 16).value >= 0)
            then s in u'.vals && u'.vals[s] == v else u' == u)
    ensures forall x: nat :: x != s ==> Get(WithValue(k, u, s, v).vals, x) == Get(u.vals, x)
    ensures WithValue(k, u, s, v).modes == u.modes
    ensures var u' := WithValue(k, u, s, v);
      u'.sels == if k.Sym(s).choice.Some? && BoolTristate(k.Sym(s).origType) && (v == Level(2) || v == Text("y"))
                 then u.sels[k.Sym(s).choice.value := s] else u.sels
  {
  }

  /** Which modes a choice takes. */
  lemma ModeTakes(k: Kconfig, u: User, c: nat, t: Tri)
    ensures WithMode(k, u, c, t) ==
      if k.Ch(c).origType == TRISTATE || (k.Ch(c).origType == BOOL && t != 1)
      then User(u.vals, u.modes[c := t], u.sels) else u
  {
  }
}

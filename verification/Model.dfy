/**
  A finalised Kconfig configuration: symbols, choices and the conditions on their
  properties, together with the equations that define every value.

  The equations are written with open recursion.  `Step(k, u, q, w)` says what the
  quantity `q` (a visibility, a value, a selection, ...) is when the user state is `u`
  and every other quantity has the value that the world `w` gives it.  Plain recursive
  evaluation is the solution of these equations; it lives in module `Evaluation`.
 */
module Model {

  datatype Option<+T> = None | Some(value: T)

  /** n, m and y as 0, 1 and 2. */
  type Tri = t: int | 0 <= t <= 2

  function Min(a: Tri, b: Tri): Tri { if a <= b then a else b }

  function Max(a: Tri, b: Tri): Tri { if a <= b then b else a }

  function TriStr(t: Tri): string { if t == 0 then "n" else if t == 1 then "m" else "y" }

  datatype Type = UNKNOWN | BOOL | TRISTATE | STRING | INT | HEX | KEY

  predicate BoolTristate(t: Type) { t == BOOL || t == TRISTATE }

  predicate IntHex(t: Type) { t == INT || t == HEX }

  function Base(t: Type): nat { if t == HEX then 16 else if t == INT then 10 else 0 }

  // ----- Expressions -----

  /** A symbol in an expression: a constant n/m/y, a quoted or undefined symbol (which
      has its name as its string value), or a symbol of the configuration. */
  datatype Sym = NMY(tri: Tri) | Plain(name: string) | Defined(id: nat)

  datatype Relation = EQUAL | UNEQUAL | LESS | LESS_EQUAL | GREATER | GREATER_EQUAL

  /** `Mode(c)` is a reference to a choice, whose tristate value is its mode. */
  datatype Expr =
    | Ref(sym: Sym)
    | Mode(choice: nat)
    | And(left: Expr, right: Expr)
    | Or(left: Expr, right: Expr)
    | Not(arg: Expr)
    | Rel(rel: Relation, a: Sym, b: Sym)

  const N := Ref(NMY(0))
  const Y := Ref(NMY(2))

  // ----- Configurations -----

  datatype Default = Default(value: Expr, cond: Expr)

  datatype Range = Range(low: Sym, high: Sym, cond: Expr)

  /** A symbol after finalisation.  `prompts` holds the prompt condition of each menu
      node that has a prompt; `auto` marks `option env` and `defconfig_list` symbols. */
  datatype SymbolDef = SymbolDef(
    name: string,
    origType: Type,
    prompts: seq<Expr>,
    defaults: seq<Default>,
    ranges: seq<Range>,
    revDep: Expr,
    weakRevDep: Expr,
    directDep: Expr,
    choice: Option<nat>,
    auto: bool)

  datatype ChoiceDefault = ChoiceDefault(sym: nat, cond: Expr)

  datatype ChoiceDef = ChoiceDef(
    origType: Type,
    prompts: seq<Expr>,
    defaults: seq<ChoiceDefault>,
    syms: seq<nat>,
    isOptional: bool)

  /** Number formats: `parse(s, base)` is what `int(s, base)` returns, if anything. */
  datatype Numerals = Numerals(
    parse: (string, nat) -> Option<int>,
    dec: int -> string,
    hex: int -> string)

  const NoSymbol := SymbolDef("", UNKNOWN, [], [], [], N, N, N, None, false)
  const NoChoice := ChoiceDef(UNKNOWN, [], [], [], false)

  /** `modules` is the symbol MODULES, if it is defined.  Numbers past the end of a
      table stand for undefined symbols and empty choices. */
  datatype Kconfig = Kconfig(
    symbols: seq<SymbolDef>,
    choices: seq<ChoiceDef>,
    modules: Option<nat>,
    num: Numerals)
  {
    function Sym(s: nat): SymbolDef { if s < |symbols| then symbols[s] else NoSymbol }

    function Ch(c: nat): ChoiceDef { if c < |choices| then choices[c] else NoChoice }
  }

  // ----- User state -----

  /** A value given to a symbol: n/m/y for bool and tristate, text otherwise. */
  datatype UserVal = Level(t: Tri) | Text(s: string)

  datatype User = User(
    vals: map<nat, UserVal>,   // Symbol.user_value
    modes: map<nat, Tri>,      // Choice.user_value
    sels: map<nat, nat>)       // Choice.user_selection

  const NoUser := User(map[], map[], map[])

  function Get<K, V>(m: map<K, V>, key: K): Option<V> { if key in m then Some(m[key]) else None }

  // ----- Quantities and worlds -----

  datatype Item = S(s: nat) | C(c: nat)

  /** The quantities that have a cache: for symbols the visibility, tristate value,
      string value and assignable values; for choices the visibility, selection and
      assignable values. */
  datatype Query =
    | Vis(s: nat) | TriOf(s: nat) | StrOf(s: nat) | Asg(s: nat)
    | CVis(c: nat) | Sel(c: nat) | CAsg(c: nat)

  function ItemOf(q: Query): Item {
    match q
    case Vis(s) => S(s) case TriOf(s) => S(s) case StrOf(s) => S(s) case Asg(s) => S(s)
    case CVis(c) => C(c) case Sel(c) => C(c) case CAsg(c) => C(c)
  }

  /** A value together with whether it goes into .config (`_write_to_conf`). */
  datatype TriVal = TriVal(val: Tri, write: bool)
  datatype StrVal = StrVal(val: string, write: bool)

  datatype Val =
    | LevelV(t: Tri) | TriV(tv: TriVal) | StrV(sv: StrVal)
    | SelV(sel: Option<nat>) | AsgV(asg: seq<Tri>)

  datatype World = World(
    vis: nat -> Tri,
    tri: nat -> TriVal,
    str: nat -> StrVal,
    cvis: nat -> Tri,
    sel: nat -> Option<nat>)

  function Look(w: World, q: Query): Val {
    match q
    case Vis(s) => LevelV(w.vis(s))
    case TriOf(s) => TriV(w.tri(s))
    case StrOf(s) => StrV(w.str(s))
    case CVis(c) => LevelV(w.cvis(c))
    case Sel(c) => SelV(w.sel(c))
    case _ => AsgV([])   // nothing reads assignable values
  }

  // ----- Expression values -----

  function ModulesVal(k: Kconfig, w: World): Tri {
    if k.modules.Some? then w.tri(k.modules.value).val else 0
  }

  function ChoiceType(k: Kconfig, c: nat, w: World): Type {
    if k.Ch(c).origType == TRISTATE && ModulesVal(k, w) == 0 then BOOL else k.Ch(c).origType
  }

  function ModeLimit(k: Kconfig, u: User, c: nat): Tri {
    var least := if k.Ch(c).isOptional then 0 else 1;
    if c in u.modes then Max(least, u.modes[c]) else least
  }

  /** Choice.tri_value */
  function ModeOf(k: Kconfig, u: User, c: nat, w: World): Tri {
    var v := Min(ModeLimit(k, u, c), w.cvis(c));
    if v == 1 && ChoiceType(k, c, w) == BOOL then 2 else v
  }

  function TypeOf(k: Kconfig, x: Sym): Type {
    match x
    case NMY(_) => TRISTATE
    case Plain(_) => UNKNOWN
    case Defined(i) => k.Sym(i).origType
  }

  function SymTri(x: Sym, w: World): Tri {
    match x
    case NMY(t) => t
    case Plain(_) => 0
    case Defined(i) => w.tri(i).val
  }

  function SymStr(x: Sym, w: World): string {
    match x
    case NMY(t) => TriStr(t)
    case Plain(name) => name
    case Defined(i) => w.str(i).val
  }

  function StrCmp(a: string, b: string): int {
    if a == [] then (if b == [] then 0 else -1)
    else if b == [] then 1
    else if a[0] != b[0] then (if a[0] < b[0] then -1 else 1)
    else StrCmp(a[1..], b[1..])
  }

  /** _sym_to_num(), None where it raises ValueError. */
  function SymNum(k: Kconfig, x: Sym, w: World): Option<int> {
    if BoolTristate(TypeOf(k, x)) then Some(SymTri(x, w))
    else k.num.parse(SymStr(x, w), Base(TypeOf(k, x)))
  }

  predicate CompareAsText(k: Kconfig, a: Sym, b: Sym) {
    TypeOf(k, a) == TypeOf(k, b) && TypeOf(k, a) in {STRING, KEY}
  }

  function Compare(k: Kconfig, a: Sym, b: Sym, w: World): int {
    if !CompareAsText(k, a, b) && SymNum(k, a, w).Some? && SymNum(k, b, w).Some?
    then SymNum(k, a, w).value - SymNum(k, b, w).value
    else StrCmp(SymStr(a, w), SymStr(b, w))
  }

  function Holds(rel: Relation, comp: int): Tri {
    var b := match rel
      case EQUAL => comp == 0
      case UNEQUAL => comp != 0
      case LESS => comp < 0
      case LESS_EQUAL => comp <= 0
      case GREATER => comp > 0
      case GREATER_EQUAL => comp >= 0;
    if b then 2 else 0
  }

  /** The meaning of an expression: && is minimum, || is maximum, ! is 2 minus. */
  function ExprVal(k: Kconfig, u: User, e: Expr, w: World): Tri {
    match e
    case Ref(x) => SymTri(x, w)
    case Mode(c) => ModeOf(k, u, c, w)
    case And(l, r) => Min(ExprVal(k, u, l, w), ExprVal(k, u, r, w))
    case Or(l, r) => Max(ExprVal(k, u, l, w), ExprVal(k, u, r, w))
    case Not(x) => 2 - ExprVal(k, u, x, w)
    case Rel(rel, a, b) => Holds(rel, Compare(k, a, b, w))
  }

  /** The largest value among the expressions, 0 if there are none. */
  function MaxVal(k: Kconfig, u: User, es: seq<Expr>, w: World): Tri {
    if es == [] then 0
    else Max(MaxVal(k, u, es[..|es| - 1], w), ExprVal(k, u, es[|es| - 1], w))
  }

  /** The position of the first condition that is not n, or |es| if all are n. */
  function FirstOn(k: Kconfig, u: User, es: seq<Expr>, w: World): (i: nat)
    ensures i <= |es|
    ensures i < |es| ==> ExprVal(k, u, es[i], w) != 0
    ensures forall j :: 0 <= j < i ==> ExprVal(k, u, es[j], w) == 0
  {
    if es == [] || ExprVal(k, u, es[0], w) != 0 then 0 else 1 + FirstOn(k, u, es[1..], w)
  }

  function Conds(ds: seq<Default>): seq<Expr> { seq(|ds|, i requires 0 <= i < |ds| => ds[i].cond) }

  function RangeConds(rs: seq<Range>): seq<Expr> { seq(|rs|, i requires 0 <= i < |rs| => rs[i].cond) }

  function ChoiceConds(ds: seq<ChoiceDefault>): seq<Expr> {
    seq(|ds|, i requires 0 <= i < |ds| => ds[i].cond)
  }

  // ----- The equations of a symbol -----

  /** Symbol.type */
  function SymType(k: Kconfig, u: User, s: nat, w: World): Type {
    var d := k.Sym(s);
    if d.origType == TRISTATE
       && ((d.choice.Some? && ModeOf(k, u, d.choice.value, w) == 2) || ModulesVal(k, w) == 0)
    then BOOL else d.origType
  }

  /** _visibility() of a symbol */
  function VisStep(k: Kconfig, u: User, s: nat, w: World): Tri {
    var d := k.Sym(s);
    var vis := MaxVal(k, u, d.prompts, w);
    if d.choice.Some? && k.Ch(d.choice.value).origType == TRISTATE && d.origType != TRISTATE
       && ModeOf(k, u, d.choice.value, w) != 2
    then 0
    else if d.choice.Some? && d.origType == TRISTATE && vis == 1 && ModeOf(k, u, d.choice.value, w) == 2
    then 0
    else if vis == 1 && SymType(k, u, s, w) != TRISTATE then 2
    else vis
  }

  function UserLevel(u: User, s: nat): Option<Tri> {
    if s in u.vals && u.vals[s].Level? then Some(u.vals[s].t) else None
  }

  function UserText(u: User, s: nat): Option<string> {
    if s in u.vals && u.vals[s].Text? then Some(u.vals[s].s) else None
  }

  /** The value of the first default whose condition is not n, limited by the condition. */
  function DefaultTri(k: Kconfig, u: User, s: nat, w: World): Tri {
    var ds := k.Sym(s).defaults;
    var i := FirstOn(k, u, Conds(ds), w);
    if i < |ds| then Min(ExprVal(k, u, ds[i].value, w), ExprVal(k, u, ds[i].cond, w)) else 0
  }

  /** The value from defaults and implies; implies need the direct dependencies. */
  function FallbackTri(k: Kconfig, u: User, s: nat, w: World): TriVal {
    var v := DefaultTri(k, u, s, w);
    var weak := ExprVal(k, u, k.Sym(s).weakRevDep, w);
    if weak != 0 && ExprVal(k, u, k.Sym(s).directDep, w) != 0 then TriVal(Max(weak, v), true)
    else TriVal(v, w.vis(s) != 0 || v != 0)
  }

  /** The value of a non-choice symbol before selects and before m is promoted. */
  function BaseTri(k: Kconfig, u: User, s: nat, w: World): TriVal {
    if w.vis(s) != 0 && UserLevel(u, s).Some? then TriVal(Min(UserLevel(u, s).value, w.vis(s)), true)
    else FallbackTri(k, u, s, w)
  }

  predicate PromotesM(k: Kconfig, u: User, s: nat, w: World) {
    SymType(k, u, s, w) == BOOL || ExprVal(k, u, k.Sym(s).weakRevDep, w) == 2
  }

  /** The value of a symbol that is not in a choice: selects win over everything else. */
  function PlainTriStep(k: Kconfig, u: User, s: nat, w: World): TriVal {
    var b := BaseTri(k, u, s, w);
    var rev := ExprVal(k, u, k.Sym(s).revDep, w);
    var v := Max(rev, b.val);
    TriVal(if v == 1 && PromotesM(k, u, s, w) then 2 else v, b.write || rev != 0)
  }

  /** The value of a symbol of choice `c`: the selection decides in y mode. */
  function ChoiceTriStep(u: User, s: nat, c: nat, w: World): TriVal {
    var vis := w.vis(s);
    if vis == 2 then TriVal(if w.sel(c) == Some(s) then 2 else 0, true)
    else if vis != 0 && UserLevel(u, s).Some? && UserLevel(u, s).value != 0 then TriVal(1, true)
    else TriVal(0, vis != 0)
  }

  /** Symbol.tri_value */
  function TriStep(k: Kconfig, u: User, s: nat, w: World): TriVal {
    var d := k.Sym(s);
    if !BoolTristate(d.origType) then TriVal(0, false)
    else if d.choice.None? then PlainTriStep(k, u, s, w)
    else ChoiceTriStep(u, s, d.choice.value, w)
  }

  function NumOr0(k: Kconfig, text: string, base: nat): int {
    match k.num.parse(text, base) case Some(n) => n case None => 0
  }

  datatype Bounds = Unbounded | Bounds(low: int, high: int) {
    predicate Admits(n: int) { Bounds? ==> low <= n <= high }
  }

  /** The first range whose condition is not n. */
  function ActiveRange(k: Kconfig, u: User, s: nat, w: World): Bounds {
    var d := k.Sym(s);
    var i := FirstOn(k, u, RangeConds(d.ranges), w);
    if i < |d.ranges| then
      Bounds(NumOr0(k, SymStr(d.ranges[i].low, w), Base(d.origType)),
             NumOr0(k, SymStr(d.ranges[i].high, w), Base(d.origType)))
    else Unbounded
  }

  /** A default of a non-bool symbol is always a single symbol. */
  function DefaultText(e: Expr, w: World): string { if e.Ref? then SymStr(e.sym, w) else "" }

  /** The text of the first default whose condition is not n, if there is one. */
  function DefaultStr(k: Kconfig, u: User, s: nat, w: World): Option<string> {
    var ds := k.Sym(s).defaults;
    var i := FirstOn(k, u, Conds(ds), w);
    if i < |ds| then Some(DefaultText(ds[i].value, w)) else None
  }

  function Clamp(k: Kconfig, t: Type, text: string, r: Bounds): string {
    var n := NumOr0(k, text, Base(t));
    if r.Admits(n) then text
    else
      var c := if n < r.low then r.low else r.high;
      if t == INT then k.num.dec(c) else k.num.hex(c)
  }

  /** The user value of an int or hex symbol, when it is in use. */
  predicate UserNumberInUse(k: Kconfig, u: User, s: nat, w: World) {
    w.vis(s) != 0 && UserText(u, s).Some? && UserText(u, s).value != ""
    && ActiveRange(k, u, s, w).Admits(NumOr0(k, UserText(u, s).value, Base(k.Sym(s).origType)))
  }

  function NumberStep(k: Kconfig, u: User, s: nat, w: World): StrVal {
    if UserNumberInUse(k, u, s, w) then StrVal(UserText(u, s).value, true)
    else
      var dflt := DefaultStr(k, u, s, w);
      var text := if dflt.Some? then dflt.value else "";
      StrVal(Clamp(k, k.Sym(s).origType, text, ActiveRange(k, u, s, w)), w.vis(s) != 0 || dflt.Some?)
  }

  function TextStep(k: Kconfig, u: User, s: nat, w: World): StrVal {
    var dflt := DefaultStr(k, u, s, w);
    if w.vis(s) != 0 && UserText(u, s).Some? then StrVal(UserText(u, s).value, true)
    else if dflt.Some? then StrVal(dflt.value, true)
    else StrVal("", w.vis(s) != 0)
  }

  /** The string value of a symbol that has a type other than bool and tristate. */
  function TypedStrStep(k: Kconfig, u: User, s: nat, w: World): StrVal {
    var v := if IntHex(k.Sym(s).origType) then NumberStep(k, u, s, w) else TextStep(k, u, s, w);
    if k.Sym(s).auto then StrVal(v.val, false) else v
  }

  /** Symbol.str_value */
  function StrStep(k: Kconfig, u: User, s: nat, w: World): StrVal {
    var d := k.Sym(s);
    if BoolTristate(d.origType) then StrVal(TriStr(w.tri(s).val), w.tri(s).write)
    else if d.origType == UNKNOWN then StrVal(d.name, false)
    else TypedStrStep(k, u, s, w)
  }

  /** Symbol._assignable() */
  function AsgStep(k: Kconfig, u: User, s: nat, w: World): seq<Tri> {
    var d, vis := k.Sym(s), w.vis(s);
    if !BoolTristate(d.origType) || vis == 0 then []
    else
      var rev := ExprVal(k, u, d.revDep, w);
      if vis == 2 then
        if d.choice.Some? then [2]
        else if rev == 0 then (if PromotesM(k, u, s, w) then [0, 2] else [0, 1, 2])
        else if rev == 2 then [2]
        else if PromotesM(k, u, s, w) then [2] else [1, 2]
      else if rev == 0 then (if ExprVal(k, u, d.weakRevDep, w) != 2 then [0, 1] else [0, 2])
      else if rev == 2 then [2]
      else [1]
  }

  // ----- The equations of a choice -----

  function CVisStep(k: Kconfig, u: User, c: nat, w: World): Tri {
    var vis := MaxVal(k, u, k.Ch(c).prompts, w);
    if vis == 1 && ChoiceType(k, c, w) != TRISTATE then 2 else vis
  }

  /** The first symbol of the sequence that is visible. */
  function FirstVisible(syms: seq<nat>, w: World): Option<nat> {
    if syms == [] then None
    else if w.vis(syms[0]) != 0 then Some(syms[0])
    else FirstVisible(syms[1..], w)
  }

  /** The first default whose condition is not n and whose symbol is visible. */
  function DefaultSelection(k: Kconfig, u: User, ds: seq<ChoiceDefault>, w: World): Option<nat> {
    if ds == [] then None
    else if ExprVal(k, u, ds[0].cond, w) != 0 && w.vis(ds[0].sym) != 0 then Some(ds[0].sym)
    else DefaultSelection(k, u, ds[1..], w)
  }

  /** Choice._selection_from_defaults() */
  function SelectionFromDefaults(k: Kconfig, u: User, c: nat, w: World): Option<nat> {
    var dflt := DefaultSelection(k, u, k.Ch(c).defaults, w);
    if dflt.Some? then dflt else FirstVisible(k.Ch(c).syms, w)
  }

  /** Choice._selection() */
  function SelStep(k: Kconfig, u: User, c: nat, w: World): Option<nat> {
    if ModeOf(k, u, c, w) != 2 then None
    else if c in u.sels && w.vis(u.sels[c]) != 0 then Some(u.sels[c])
    else SelectionFromDefaults(k, u, c, w)
  }

  /** Choice._assignable() */
  function CAsgStep(k: Kconfig, c: nat, w: World): seq<Tri> {
    var vis, isBool := w.cvis(c), ChoiceType(k, c, w) == BOOL;
    if vis == 0 then []
    else if vis == 2 then
      if !k.Ch(c).isOptional then (if isBool then [2] else [1, 2])
      else (if isBool then [0, 2] else [0, 1, 2])
    else if k.Ch(c).isOptional then [0, 1] else [1]
  }

  function Step(k: Kconfig, u: User, q: Query, w: World): Val {
    match q
    case Vis(s) => LevelV(VisStep(k, u, s, w))
    case TriOf(s) => TriV(TriStep(k, u, s, w))
    case StrOf(s) => StrV(StrStep(k, u, s, w))
    case Asg(s) => AsgV(AsgStep(k, u, s, w))
    case CVis(c) => LevelV(CVisStep(k, u, c, w))
    case Sel(c) => SelV(SelStep(k, u, c, w))
    case CAsg(c) => AsgV(CAsgStep(k, c, w))
  }
}

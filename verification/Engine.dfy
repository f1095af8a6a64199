/**
  The memoising evaluator: lazily cached values, and set_value()/unset_value() with
  pruned recursive invalidation.  The `_cached_*` attributes of all symbols and choices
  are held in one map from attribute and item to value.
 */
module Engine {
  import opened Model
  import opened Evaluation
  import opened Dependencies
  import opened CacheTheory

  // ----- The effect of user operations on the user state -----

  /** n, m and y may be given as text to bool and tristate symbols. */
  function Normalize(k: Kconfig, s: nat, v: UserVal): UserVal {
    if BoolTristate(k.Sym(s).origType) && v.Text? then
      if v.s == "n" then Level(0) else if v.s == "m" then Level(1) else if v.s == "y" then Level(2) else v
    else v
  }

  /** The user state after `v` is set on symbol `s`. */
  function WithValue(k: Kconfig, u: User, s: nat, v: UserVal): User {
    var x := Normalize(k, s, v);
    if !Acceptable(k, s, x) then u
    else
      var u' := u.(vals := u.vals[s := x]);
      if k.Sym(s).choice.Some? && x == Level(2) then u'.(sels := u.sels[k.Sym(s).choice.value := s]) else u'
  }

  lemma WithValueValid(k: Kconfig, u: User, s: nat, v: UserVal)
    requires ChoicesOk(k) && ValidUser(k, u)
    ensures ValidUser(k, WithValue(k, u, s, v))
    ensures Get(u.vals, s) == Some(Normalize(k, s, v)) ==> Acceptable(k, s, Normalize(k, s, v))
    ensures Get(u.vals, s) == Some(Normalize(k, s, v)) && k.Sym(s).choice.None? ==> WithValue(k, u, s, v) == u
    ensures k.Sym(s).choice.Some? ==> k.Sym(s).choice.value < |k.choices|
  {
    var x := Normalize(k, s, v);
    if Get(u.vals, s) == Some(x) { assert u.vals[s := x] == u.vals; }
    if k.Sym(s).choice.Some? { assert s in k.Ch(k.Sym(s).choice.value).syms; }
  }

  function WithoutValue(u: User, s: nat): User { u.(vals := u.vals - {s}) }

  function WithMode(k: Kconfig, u: User, c: nat, t: Tri): User {
    if ModeAcceptable(k, c, t) then u.(modes := u.modes[c := t]) else u
  }

  function WithoutMode(u: User, c: nat): User { u.(modes := u.modes - {c}, sels := u.sels - {c}) }

  // ----- The evaluator -----

  class Kconf {
    const k: Kconfig
    ghost const rk: Rank
    var user: User
    var cache: Cache
    var symsSet: set<nat>      // symbols with _was_set
    var choicesSet: set<nat>   // choices with _was_set

    ghost predicate WellFormed() {
      ChoicesOk(k) && ChoiceEdges(k) && WellRanked(k, rk)
    }

    ghost predicate Valid()
      reads this
    {
      WellFormed() && ValidUser(k, user) && CacheInv(k, user, cache)
    }

    /** What plain recursive evaluation gives in the current user state. */
    ghost function Now(): World
      reads this`user
    {
      Eval(k, user)
    }

    constructor (k: Kconfig, ghost rk: Rank)
      requires ChoicesOk(k) && ChoiceEdges(k) && WellRanked(k, rk)
      ensures Valid() && this.k == k && this.rk == rk && user == NoUser
    {
      this.k, this.rk := k, rk;
      user, cache := NoUser, map[];
      symsSet, choicesSet := {}, {};
    }

    // ----- Cached reads -----

    method GetVis(s: nat) returns (v: Tri)
      requires Valid()
      modifies this`cache
      ensures Valid() && Grows(old(cache), cache) && Vis(s) in cache && cache[Vis(s)] == LevelV(v)
      decreases rk(Vis(s)), 9
    {
      if Vis(s) !in cache {
        v := SymVisibility(s);
        Add(k, user, cache, Vis(s), LevelV(v));
        cache := cache[Vis(s) := LevelV(v)];
      }
      v := cache[Vis(s)].t;
    }

    /** _visibility() */
    method SymVisibility(s: nat) returns (v: Tri)
      requires Valid()
      modifies this`cache
      ensures Valid() && Grows(old(cache), cache)
      ensures Forced(k, user, cache, Vis(s), LevelV(v))
      decreases rk(Vis(s)), 8
    {
      VisRanks(k, rk, s);
      var d := k.Sym(s);
      var vis := MaxValue(d.prompts, rk(Vis(s)));
      ghost var c1 := cache;
      if d.choice.Some? {
        var off := HiddenByChoice(s, vis);
        assert Grows(c1, cache);
        if off {
          return 0;
        }
      }
      ghost var c2 := cache;
      v := vis;
      if vis == 1 {
        var t := TypeValue(s, rk(Vis(s)));
        assert Grows(c2, cache);
        if t != TRISTATE {
          v := 2;
        }
      }
    }

    /** The two tests for choice symbols, which look at the mode only when they have to. */
    method HiddenByChoice(s: nat, vis: Tri) returns (off: bool)
      requires Valid() && k.Sym(s).choice.Some?
      modifies this`cache
      ensures Valid() && Grows(old(cache), cache)
      ensures var d := k.Sym(s); forall w: World :: Models(w, cache) ==>
        var c := d.choice.value;
        off == ((k.Ch(c).origType == TRISTATE && d.origType != TRISTATE && ModeOf(k, user, c, w) != 2)
                || (d.origType == TRISTATE && vis == 1 && ModeOf(k, user, c, w) == 2))
      decreases rk(Vis(s)), 7
    {
      VisRanks(k, rk, s);
      var d, c := k.Sym(s), k.Sym(s).choice.value;
      off := false;
      if k.Ch(c).origType == TRISTATE && d.origType != TRISTATE {
        var mode := ModeValue(c, rk(Vis(s)));
        off := mode != 2;
      } else if d.origType == TRISTATE && vis == 1 {
        var mode := ModeValue(c, rk(Vis(s)));
        off := mode == 2;
      }
    }

    method MaxValue(es: seq<Expr>, ghost n: nat) returns (v: Tri)
      requires Valid() && Under(rk, ExprsReads(k, es), n)
      modifies this`cache
      ensures Valid() && Grows(old(cache), cache)
      ensures forall w: World :: Models(w, cache) ==> MaxVal(k, user, es, w) == v
      decreases n, 5
    {
      v := 0;
      for i := 0 to |es|
        invariant Valid() && Grows(old(cache), cache)
        invariant forall w: World :: Models(w, cache) ==> MaxVal(k, user, es[..i], w) == v
      {
        assert es[i] in es && ExprReads(k, es[i]) <= ExprsReads(k, es);
        ghost var before := cache;
        var x := ExprValue(es[i], n);
        v := Max(v, x);
        assert es[..i + 1][..i] == es[..i];
        assert forall w: World :: Models(w, cache) ==> Models(w, before);
      }
      assert es[..|es|] == es;
    }

    /** expr_value(), with its short cuts */
    method ExprValue(e: Expr, ghost n: nat) returns (v: Tri)
      requires Valid() && Under(rk, ExprReads(k, e), n)
      modifies this`cache
      ensures Valid() && Grows(old(cache), cache)
      ensures forall w: World :: Models(w, cache) ==> ExprVal(k, user, e, w) == v
      decreases n, 4, e
    {
      match e
      case Ref(x) => v := SymTriValue(x, n);
      case Mode(c) => v := ModeValue(c, n);
      case And(l, r) =>
        var v1 := ExprValue(l, n);
        ghost var c1 := cache;
        if v1 == 0 { return 0; }
        var v2 := ExprValue(r, n);
        assert forall w: World :: Models(w, cache) ==> Models(w, c1);
        v := Min(v1, v2);
      case Or(l, r) =>
        var v1 := ExprValue(l, n);
        ghost var c1 := cache;
        if v1 == 2 { return 2; }
        var v2 := ExprValue(r, n);
        assert forall w: World :: Models(w, cache) ==> Models(w, c1);
        v := Max(v1, v2);
      case Not(x) =>
        var v1 := ExprValue(x, n);
        v := 2 - v1;
      case Rel(rel, a, b) => v := RelValue(rel, a, b, n);
    }

    method SymTriValue(x: Sym, ghost n: nat) returns (v: Tri)
      requires Valid() && Under(rk, TriReads(x), n)
      modifies this`cache
      ensures Valid() && Grows(old(cache), cache)
      ensures forall w: World :: Models(w, cache) ==> SymTri(x, w) == v
      decreases n, 0
    {
      match x
      case NMY(t) => v := t;
      case Plain(_) => v := 0;
      case Defined(i) =>
        var tv := GetTri(i);
        v := tv.val;
        assert forall w: World :: Models(w, cache) ==> Look(w, TriOf(i)) == cache[TriOf(i)];
    }

    method SymStrValue(x: Sym, ghost n: nat) returns (v: string)
      requires Valid() && Under(rk, StrReads(x), n)
      modifies this`cache
      ensures Valid() && Grows(old(cache), cache)
      ensures forall w: World :: Models(w, cache) ==> SymStr(x, w) == v
      decreases n, 0
    {
      match x
      case NMY(t) => v := TriStr(t);
      case Plain(name) => v := name;
      case Defined(i) =>
        var sv := GetStr(i);
        v := sv.val;
        assert forall w: World :: Models(w, cache) ==> Look(w, StrOf(i)) == cache[StrOf(i)];
    }

    /** _sym_to_num() */
    method SymNumValue(x: Sym, ghost n: nat) returns (v: Option<int>)
      requires Valid() && Under(rk, SymReads(x), n)
      modifies this`cache
      ensures Valid() && Grows(old(cache), cache)
      ensures forall w: World :: Models(w, cache) ==> SymNum(k, x, w) == v
      decreases n, 1
    {
      if BoolTristate(TypeOf(k, x)) {
        var t := SymTriValue(x, n);
        v := Some(t);
      } else {
        var text := SymStrValue(x, n);
        v := k.num.parse(text, Base(TypeOf(k, x)));
      }
    }

    method RelValue(rel: Relation, a: Sym, b: Sym, ghost n: nat) returns (v: Tri)
      requires Valid() && Under(rk, SymReads(a) + SymReads(b), n)
      modifies this`cache
      ensures Valid() && Grows(old(cache), cache)
      ensures forall w: World :: Models(w, cache) ==> Holds(rel, Compare(k, a, b, w)) == v
      decreases n, 2
    {
      var asText := CompareAsText(k, a, b);
      if !asText {
        var x := SymNumValue(a, n);
        ghost var c1 := cache;
        if x.Some? {
          var y := SymNumValue(b, n);
          assert forall w: World :: Models(w, cache) ==> Models(w, c1);
          if y.Some? {
            return Holds(rel, x.value - y.value);
          }
          ghost var c2 := cache;
          v := TextRelValue(rel, a, b, n);
          assert forall w: World :: Models(w, cache) ==> Models(w, c2);
          return;
        }
        v := TextRelValue(rel, a, b, n);
        assert forall w: World :: Models(w, cache) ==> Models(w, c1);
        return;
      }
      v := TextRelValue(rel, a, b, n);
    }

    method TextRelValue(rel: Relation, a: Sym, b: Sym, ghost n: nat) returns (v: Tri)
      requires Valid() && Under(rk, SymReads(a) + SymReads(b), n)
      modifies this`cache
      ensures Valid() && Grows(old(cache), cache)
      ensures forall w: World :: Models(w, cache) ==> Holds(rel, StrCmp(SymStr(a, w), SymStr(b, w))) == v
      decreases n, 1
    {
      var s := SymStrValue(a, n);
      ghost var c1 := cache;
      var t := SymStrValue(b, n);
      assert forall w: World :: Models(w, cache) ==> Models(w, c1);
      v := Holds(rel, StrCmp(s, t));
    }

    method ModulesValue(t: Type, ghost n: nat) returns (v: Tri)
      requires Valid() && t == TRISTATE && Under(rk, ModulesRead(k, t), n)
      modifies this`cache
      ensures Valid() && Grows(old(cache), cache)
      ensures forall w: World :: Models(w, cache) ==> ModulesVal(k, w) == v
      decreases n, 1
    {
      if k.modules.Some? {
        v := SymTriValue(Defined(k.modules.value), n);
      } else {
        v := 0;
      }
    }

    /** Choice.type */
    method ChoiceTypeValue(c: nat, ghost n: nat) returns (t: Type)
      requires Valid() && Under(rk, ModulesRead(k, k.Ch(c).origType), n)
      modifies this`cache
      ensures Valid() && Grows(old(cache), cache)
      ensures forall w: World :: Models(w, cache) ==> ChoiceType(k, c, w) == t
      decreases n, 2
    {
      t := k.Ch(c).origType;
      if t == TRISTATE {
        var m := ModulesValue(t, n);
        if m == 0 {
          t := BOOL;
        }
      }
    }

    /** Choice.tri_value */
    method ModeValue(c: nat, ghost n: nat) returns (v: Tri)
      requires Valid() && Under(rk, ModeReads(k, c), n)
      modifies this`cache
      ensures Valid() && Grows(old(cache), cache)
      ensures CVis(c) in cache
      ensures forall w: World :: Models(w, cache) ==> ModeOf(k, user, c, w) == v
      decreases n, 3
    {
      v := ModeLimit(k, user, c);
      var vis := GetChoiceVis(c);
      ghost var c1 := cache;
      assert forall w: World :: Models(w, c1) ==> Look(w, CVis(c)) == c1[CVis(c)];
      v := Min(v, vis);
      if v == 1 {
        var t := ChoiceTypeValue(c, n);
        assert forall w: World :: Models(w, cache) ==> Models(w, c1);
        if t == BOOL {
          v := 2;
        }
      }
    }

    method TypeValue(s: nat, ghost n: nat) returns (t: Type)
      requires Valid() && Under(rk, TypeReads(k, s), n)
      modifies this`cache
      ensures Valid() && Grows(old(cache), cache)
      ensures forall w: World :: Models(w, cache) ==> SymType(k, user, s, w) == t
      decreases n, 4
    {
      var d := k.Sym(s);
      t := d.origType;
      if t == TRISTATE {
        if d.choice.Some? {
          var mode := ModeValue(d.choice.value, n);
          if mode == 2 {
            return BOOL;
          }
        }
        ghost var c1 := cache;
        var m := ModulesValue(t, n);
        assert forall w: World :: Models(w, cache) ==> Models(w, c1);
        if m == 0 {
          t := BOOL;
        }
      }
    }

    /** The position and value of the first condition that is not n. */
    method FirstOnValue(es: seq<Expr>, ghost n: nat) returns (i: nat, v: Tri)
      requires Valid() && Under(rk, ExprsReads(k, es), n)
      modifies this`cache
      ensures Valid() && Grows(old(cache), cache)
      ensures i <= |es|
      ensures forall w: World :: Models(w, cache) ==> FirstOn(k, user, es, w) == i
      ensures i < |es| ==> forall w: World :: Models(w, cache) ==> ExprVal(k, user, es[i], w) == v
      decreases n, 5
    {
      i, v := 0, 0;
      while i < |es|
        invariant i <= |es|
        invariant Valid() && Grows(old(cache), cache)
        invariant forall w: World :: Models(w, cache) ==> FirstOn(k, user, es, w) >= i
      {
        assert es[i] in es && ExprReads(k, es[i]) <= ExprsReads(k, es);
        ghost var before := cache;
        v := ExprValue(es[i], n);
        assert forall w: World :: Models(w, cache) ==> Models(w, before);
        if v != 0 {
          return;
        }
        i := i + 1;
      }
    }

    method DefaultTriValue(s: nat, ghost n: nat) returns (v: Tri)
      requires BoolTristate(k.Sym(s).origType)
      requires Valid() && Under(rk, DefaultReads(k, s), n)
      modifies this`cache
      ensures Valid() && Grows(old(cache), cache)
      ensures forall w: World :: Models(w, cache) ==> DefaultTri(k, user, s, w) == v
      decreases n, 6, 0
    {
      var ds := k.Sym(s).defaults;
      var i, cond := FirstOnValue(Conds(ds), n);
      v := 0;
      if i < |ds| {
        ghost var c1 := cache;
        assert ds[i] in ds && ExprReads(k, ds[i].value) <= DefaultReads(k, s);
        v := ExprValue(ds[i].value, n);
        assert forall w: World :: Models(w, cache) ==> Models(w, c1);
        v := Min(v, cond);
      }
    }

    method GetTri(s: nat) returns (v: TriVal)
      requires Valid()
      modifies this`cache
      ensures Valid() && Grows(old(cache), cache) && TriOf(s) in cache && cache[TriOf(s)] == TriV(v)
      decreases rk(TriOf(s)), 9
    {
      if TriOf(s) !in cache {
        if !BoolTristate(k.Sym(s).origType) {
          v := TriVal(0, false);
        } else if k.Sym(s).choice.None? {
          v := PlainTriValue(s);
        } else {
          v := ChoiceSymTriValue(s);
        }
        Add(k, user, cache, TriOf(s), TriV(v));
        cache := cache[TriOf(s) := TriV(v)];
      }
      v := cache[TriOf(s)].tv;
    }

    method ChoiceSymTriValue(s: nat) returns (v: TriVal)
      requires Valid() && BoolTristate(k.Sym(s).origType) && k.Sym(s).choice.Some?
      modifies this`cache
      ensures Valid() && Grows(old(cache), cache) && Vis(s) in cache
      ensures forall w: World :: Models(w, cache) ==> ChoiceTriStep(user, s, k.Sym(s).choice.value, w) == v
      decreases rk(TriOf(s)), 8
    {
      TriRanks(k, rk, s);
      var c := k.Sym(s).choice.value;
      var vis := GetVis(s);
      ghost var c1 := cache;
      assert forall w: World :: Models(w, c1) ==> Look(w, Vis(s)) == c1[Vis(s)];
      if vis == 2 {
        var sel := GetSelection(c);
        v := TriVal(if sel == Some(s) then 2 else 0, true);
        assert forall w: World :: Models(w, cache) ==> Models(w, c1);
        assert forall w: World :: Models(w, cache) ==> Look(w, Sel(c)) == cache[Sel(c)];
      } else if vis != 0 && UserLevel(user, s).Some? && UserLevel(user, s).value != 0 {
        v := TriVal(1, true);
      } else {
        v := TriVal(0, vis != 0);
      }
    }

    /** The value of a symbol that is not in a choice, before selects. */
    method BaseTriValue(s: nat) returns (v: TriVal)
      requires Valid() && BoolTristate(k.Sym(s).origType) && k.Sym(s).choice.None?
      modifies this`cache
      ensures Valid() && Grows(old(cache), cache) && Vis(s) in cache
      ensures forall w: World :: Models(w, cache) ==> BaseTri(k, user, s, w) == v
      decreases rk(TriOf(s)), 7
    {
      TriRanks(k, rk, s);
      var vis := GetVis(s);
      ghost var c1 := cache;
      assert forall w: World :: Models(w, c1) ==> Look(w, Vis(s)) == c1[Vis(s)];
      if vis != 0 && UserLevel(user, s).Some? {
        return TriVal(Min(UserLevel(user, s).value, vis), true);
      }
      v := FallbackTriValue(s, vis);
      assert forall w: World :: Models(w, cache) ==> Models(w, c1);
    }

    method FallbackTriValue(s: nat, vis: Tri) returns (v: TriVal)
      requires Valid() && BoolTristate(k.Sym(s).origType) && k.Sym(s).choice.None?
      requires Vis(s) in cache && cache[Vis(s)] == LevelV(vis)
      modifies this`cache
      ensures Valid() && Grows(old(cache), cache)
      ensures forall w: World :: Models(w, cache) ==> FallbackTri(k, user, s, w) == v
      decreases rk(TriOf(s)), 6, 1
    {
      TriRanks(k, rk, s);
      assert forall w: World :: Models(w, old(cache)) ==> Look(w, Vis(s)) == old(cache)[Vis(s)];
      var dflt := DefaultTriValue(s, rk(TriOf(s)));
      ghost var c2 := cache;
      var weak := ExprValue(k.Sym(s).weakRevDep, rk(TriOf(s)));
      ghost var c3 := cache;
      assert forall w: World :: Models(w, c3) ==> Models(w, c2);
      assert forall w: World :: Models(w, c2) ==> Models(w, old(cache));
      assert forall w: World :: Models(w, c3) ==> w.vis(s) == vis && DefaultTri(k, user, s, w) == dflt;
      v := TriVal(dflt, vis != 0 || dflt != 0);
      if weak != 0 {
        var direct := ExprValue(k.Sym(s).directDep, rk(TriOf(s)));
        assert forall w: World :: Models(w, cache) ==> Models(w, c3);
        if direct != 0 {
          v := TriVal(Max(weak, dflt), true);
        }
      }
    }

    method PromotesMValue(s: nat, ghost n: nat) returns (b: bool)
      requires Valid()
      requires Under(rk, AsgReads(k, s), n)
      modifies this`cache
      ensures Valid() && Grows(old(cache), cache)
      ensures forall w: World :: Models(w, cache) ==> PromotesM(k, user, s, w) == b
      decreases n, 5
    {
      var t := TypeValue(s, n);
      ghost var c1 := cache;
      b := t == BOOL;
      if !b {
        var weak := ExprValue(k.Sym(s).weakRevDep, n);
        assert forall w: World :: Models(w, cache) ==> Models(w, c1);
        b := weak == 2;
      }
    }

    method PlainTriValue(s: nat) returns (v: TriVal)
      requires Valid() && BoolTristate(k.Sym(s).origType) && k.Sym(s).choice.None?
      modifies this`cache
      ensures Valid() && Grows(old(cache), cache) && Vis(s) in cache
      ensures forall w: World :: Models(w, cache) ==> PlainTriStep(k, user, s, w) == v
      decreases rk(TriOf(s)), 8
    {
      TriRanks(k, rk, s);
      var base := BaseTriValue(s);
      ghost var c1 := cache;
      var rev := ExprValue(k.Sym(s).revDep, rk(TriOf(s)));
      ghost var c2 := cache;
      if rev != 0 {
        var _ := ExprValue(k.Sym(s).directDep, rk(TriOf(s)));   // only used for a warning
      }
      ghost var c3 := cache;
      assert forall w: World :: Models(w, c3) ==> Models(w, c1) && Models(w, c2);
      v := TriVal(Max(rev, base.val), base.write || rev != 0);
      if v.val == 1 {
        var promote := PromotesMValue(s, rk(TriOf(s)));
        assert forall w: World :: Models(w, cache) ==> Models(w, c3);
        if promote {
          v := TriVal(2, v.write);
        }
      }
    }

    method ActiveRangeValue(s: nat, ghost n: nat) returns (r: Bounds)
      requires Valid() && Under(rk, RangeReads(k, s), n)
      modifies this`cache
      ensures Valid() && Grows(old(cache), cache)
      ensures forall w: World :: Models(w, cache) ==> ActiveRange(k, user, s, w) == r
      decreases n, 6
    {
      var d := k.Sym(s);
      var i, _ := FirstOnValue(RangeConds(d.ranges), n);
      r := Unbounded;
      if i < |d.ranges| {
        ghost var c1 := cache;
        assert d.ranges[i] in d.ranges;
        assert StrReads(d.ranges[i].low) + StrReads(d.ranges[i].high) <= RangeReads(k, s);
        var low := SymStrValue(d.ranges[i].low, n);
        ghost var c2 := cache;
        var high := SymStrValue(d.ranges[i].high, n);
        assert forall w: World :: Models(w, cache) ==> Models(w, c1) && Models(w, c2);
        r := Bounds(NumOr0(k, low, Base(d.origType)), NumOr0(k, high, Base(d.origType)));
      }
    }

    method DefaultStrValue(s: nat, ghost n: nat) returns (v: Option<string>)
      requires !BoolTristate(k.Sym(s).origType)
      requires Valid() && Under(rk, DefaultReads(k, s), n)
      modifies this`cache
      ensures Valid() && Grows(old(cache), cache)
      ensures forall w: World :: Models(w, cache) ==> DefaultStr(k, user, s, w) == v
      decreases n, 6
    {
      var ds := k.Sym(s).defaults;
      var i, _ := FirstOnValue(Conds(ds), n);
      v := None;
      if i < |ds| {
        v := Some("");
        if ds[i].value.Ref? {
          ghost var c1 := cache;
          assert ds[i] in ds && StrReads(ds[i].value.sym) <= DefaultReads(k, s);
          var text := SymStrValue(ds[i].value.sym, n);
          assert forall w: World :: Models(w, cache) ==> Models(w, c1);
          v := Some(text);
        }
      }
    }

    method NumberValue(s: nat) returns (v: StrVal)
      requires Valid() && IntHex(k.Sym(s).origType)
      modifies this`cache
      ensures Valid() && Grows(old(cache), cache) && Vis(s) in cache
      ensures forall w: World :: Models(w, cache) ==> NumberStep(k, user, s, w) == v
      decreases rk(StrOf(s)), 7
    {
      StrRanks(k, rk, s);
      var d := k.Sym(s);
      var vis := GetVis(s);
      ghost var c1 := cache;
      assert forall w: World :: Models(w, c1) ==> Look(w, Vis(s)) == c1[Vis(s)];
      var range := ActiveRangeValue(s, rk(StrOf(s)));
      ghost var c2 := cache;
      assert forall w: World :: Models(w, c2) ==> Models(w, c1);
      if vis != 0 && UserText(user, s).Some? && UserText(user, s).value != "" {
        var text := UserText(user, s).value;
        if range.Admits(NumOr0(k, text, Base(d.origType))) {
          return StrVal(text, true);
        }
      }
      var dflt := DefaultStrValue(s, rk(StrOf(s)));
      assert forall w: World :: Models(w, cache) ==> Models(w, c1) && Models(w, c2);
      var text := if dflt.Some? then dflt.value else "";
      v := StrVal(Clamp(k, d.origType, text, range), vis != 0 || dflt.Some?);
    }

    method TextValue(s: nat) returns (v: StrVal)
      requires Valid() && !BoolTristate(k.Sym(s).origType)
      requires !IntHex(k.Sym(s).origType) && k.Sym(s).origType != UNKNOWN
      modifies this`cache
      ensures Valid() && Grows(old(cache), cache) && Vis(s) in cache
      ensures forall w: World :: Models(w, cache) ==> TextStep(k, user, s, w) == v
      decreases rk(StrOf(s)), 7
    {
      StrRanks(k, rk, s);
      var vis := GetVis(s);
      ghost var c1 := cache;
      assert forall w: World :: Models(w, c1) ==> Look(w, Vis(s)) == c1[Vis(s)];
      if vis != 0 && UserText(user, s).Some? {
        return StrVal(UserText(user, s).value, true);
      }
      var dflt := DefaultStrValue(s, rk(StrOf(s)));
      assert forall w: World :: Models(w, cache) ==> Models(w, c1);
      v := if dflt.Some? then StrVal(dflt.value, true) else StrVal("", vis != 0);
    }

    method TypedStrValue(s: nat) returns (v: StrVal)
      requires Valid() && !BoolTristate(k.Sym(s).origType) && k.Sym(s).origType != UNKNOWN
      modifies this`cache
      ensures Valid() && Grows(old(cache), cache) && Vis(s) in cache
      ensures forall w: World :: Models(w, cache) ==> TypedStrStep(k, user, s, w) == v
      decreases rk(StrOf(s)), 8
    {
      if IntHex(k.Sym(s).origType) {
        v := NumberValue(s);
      } else {
        v := TextValue(s);
      }
      if k.Sym(s).auto {
        v := StrVal(v.val, false);
      }
    }

    method GetStr(s: nat) returns (v: StrVal)
      requires Valid()
      modifies this`cache
      ensures Valid() && Grows(old(cache), cache) && StrOf(s) in cache && cache[StrOf(s)] == StrV(v)
      decreases rk(StrOf(s)), 10
    {
      if StrOf(s) !in cache {
        v := FindStrValue(s);
        Add(k, user, cache, StrOf(s), StrV(v));
        cache := cache[StrOf(s) := StrV(v)];
      }
      v := cache[StrOf(s)].sv;
    }

    method FindStrValue(s: nat) returns (v: StrVal)
      requires Valid()
      modifies this`cache
      ensures Valid() && Grows(old(cache), cache)
      ensures HasVis(cache, S(s)) || Constant(k, StrOf(s))
      ensures forall w: World :: Models(w, cache) ==> StrStep(k, user, s, w) == v
      decreases rk(StrOf(s)), 9
    {
      if BoolTristate(k.Sym(s).origType) {
        TriRanks(k, rk, s);
        var tv := GetTri(s);
        assert forall w: World :: Models(w, cache) ==> Look(w, TriOf(s)) == cache[TriOf(s)];
        v := StrVal(TriStr(tv.val), tv.write);
      } else if k.Sym(s).origType == UNKNOWN {
        v := StrVal(k.Sym(s).name, false);
      } else {
        v := TypedStrValue(s);
      }
    }

    method GetChoiceVis(c: nat) returns (v: Tri)
      requires Valid()
      modifies this`cache
      ensures Valid() && Grows(old(cache), cache) && CVis(c) in cache && cache[CVis(c)] == LevelV(v)
      decreases rk(CVis(c)), 9
    {
      ChoiceRanks(k, rk, c);
      if CVis(c) !in cache {
        v := MaxValue(k.Ch(c).prompts, rk(CVis(c)));
        if v == 1 {
          ghost var c1 := cache;
          var t := ChoiceTypeValue(c, rk(CVis(c)));
          assert forall w: World :: Models(w, cache) ==> Models(w, c1);
          if t != TRISTATE {
            v := 2;
          }
        }
        Add(k, user, cache, CVis(c), LevelV(v));
        cache := cache[CVis(c) := LevelV(v)];
      }
      v := cache[CVis(c)].t;
    }

    method GetSelection(c: nat) returns (v: Option<nat>)
      requires Valid()
      modifies this`cache
      ensures Valid() && Grows(old(cache), cache) && Sel(c) in cache && cache[Sel(c)] == SelV(v)
      decreases rk(Sel(c)), 9
    {
      if Sel(c) !in cache {
        v := FindSelection(c);
        Add(k, user, cache, Sel(c), SelV(v));
        cache := cache[Sel(c) := SelV(v)];
      }
      v := cache[Sel(c)].sel;
    }

    /** Choice._selection() */
    method FindSelection(c: nat) returns (v: Option<nat>)
      requires Valid()
      modifies this`cache
      ensures Valid() && Grows(old(cache), cache) && CVis(c) in cache
      ensures Forced(k, user, cache, Sel(c), SelV(v))
      decreases rk(Sel(c)), 8
    {
      ChoiceRanks(k, rk, c);
      var n := rk(Sel(c));
      var mode := ModeValue(c, n);
      ghost var c1 := cache;
      if mode != 2 {
        v := None;
        return;
      }
      if c in user.sels {
        var vis := SymbolVisible(user.sels[c], c);
        if vis {
          v := Some(user.sels[c]);
          assert forall w: World :: Models(w, cache) ==> Models(w, c1);
          return;
        }
      }
      ghost var c2 := cache;
      v := DefaultsSelection(c);
      assert forall w: World :: Models(w, cache) ==> Models(w, c1) && Models(w, c2);
    }

    method SymbolVisible(s: nat, ghost c: nat) returns (b: bool)
      requires Valid() && s in k.Ch(c).syms
      modifies this`cache
      ensures Valid() && Grows(old(cache), cache)
      ensures forall w: World :: Models(w, cache) ==> (w.vis(s) != 0) == b
      decreases rk(Sel(c)), 0
    {
      SelRanks(k, rk, c, s);
      var vis := GetVis(s);
      assert forall w: World :: Models(w, cache) ==> Look(w, Vis(s)) == cache[Vis(s)];
      b := vis != 0;
    }

    method DefaultsSelection(c: nat) returns (v: Option<nat>)
      requires Valid()
      modifies this`cache
      ensures Valid() && Grows(old(cache), cache)
      ensures forall w: World :: Models(w, cache) ==> SelectionFromDefaults(k, user, c, w) == v
      decreases rk(Sel(c)), 7
    {
      v := DefaultSelectionValue(c);
      if v == None {
        ghost var c1 := cache;
        v := FirstVisibleValue(c);
        assert forall w: World :: Models(w, cache) ==> Models(w, c1);
      }
    }

    method DefaultSelectionValue(c: nat) returns (v: Option<nat>)
      requires Valid()
      modifies this`cache
      ensures Valid() && Grows(old(cache), cache)
      ensures forall w: World :: Models(w, cache) ==> DefaultSelection(k, user, k.Ch(c).defaults, w) == v
      decreases rk(Sel(c)), 6
    {
      var ds := k.Ch(c).defaults;
      for i := 0 to |ds|
        invariant Valid() && Grows(old(cache), cache)
        invariant forall w: World :: Models(w, cache) ==>
                    DefaultSelection(k, user, ds, w) == DefaultSelection(k, user, ds[i..], w)
      {
        assert ds[i..][1..] == ds[i + 1..];
        ghost var c1 := cache;
        var b := DefaultApplies(c, i);
        assert forall w: World :: Models(w, cache) ==> Models(w, c1);
        if b {
          return Some(ds[i].sym);
        }
      }
      v := None;
    }

    method DefaultApplies(c: nat, i: nat) returns (b: bool)
      requires Valid() && i < |k.Ch(c).defaults|
      modifies this`cache
      ensures Valid() && Grows(old(cache), cache)
      ensures var x := k.Ch(c).defaults[i]; forall w: World :: Models(w, cache) ==>
                (ExprVal(k, user, x.cond, w) != 0 && w.vis(x.sym) != 0) == b
      decreases rk(Sel(c)), 5
    {
      var ds := k.Ch(c).defaults;
      assert ChoiceConds(ds)[i] == ds[i].cond && ds[i] in ds;
      assert ExprReads(k, ds[i].cond) <= ExprsReads(k, ChoiceConds(ds));
      ChoiceRanks(k, rk, c);
      var cond := ExprValue(ds[i].cond, rk(Sel(c)));
      ghost var c1 := cache;
      if cond == 0 {
        return false;
      }
      b := SymbolVisible(ds[i].sym, c);
      assert forall w: World :: Models(w, cache) ==> Models(w, c1);
    }

    method FirstVisibleValue(c: nat) returns (v: Option<nat>)
      requires Valid()
      modifies this`cache
      ensures Valid() && Grows(old(cache), cache)
      ensures forall w: World :: Models(w, cache) ==> FirstVisible(k.Ch(c).syms, w) == v
      decreases rk(Sel(c)), 2
    {
      var syms := k.Ch(c).syms;
      for i := 0 to |syms|
        invariant Valid() && Grows(old(cache), cache)
        invariant forall w: World :: Models(w, cache) ==> FirstVisible(syms, w) == FirstVisible(syms[i..], w)
      {
        ghost var c1 := cache;
        var visible := SymbolVisible(syms[i], c);
        assert forall w: World :: Models(w, cache) ==> Models(w, c1);
        if visible {
          return Some(syms[i]);
        }
      }
      v := None;
    }

    method GetAssignable(s: nat) returns (v: seq<Tri>)
      requires Valid()
      modifies this`cache
      ensures Valid() && Grows(old(cache), cache) && Asg(s) in cache && cache[Asg(s)] == AsgV(v)
    {
      if Asg(s) !in cache {
        v := FindAssignable(s);
        Add(k, user, cache, Asg(s), AsgV(v));
        cache := cache[Asg(s) := AsgV(v)];
      }
      v := cache[Asg(s)].asg;
    }

    /** Symbol._assignable() */
    method FindAssignable(s: nat) returns (v: seq<Tri>)
      requires Valid()
      modifies this`cache
      ensures Valid() && Grows(old(cache), cache)
      ensures HasVis(cache, S(s)) || Constant(k, Asg(s))
      ensures forall w: World :: Models(w, cache) ==> AsgStep(k, user, s, w) == v
    {
      var d, n := k.Sym(s), rk(Asg(s));
      if !BoolTristate(d.origType) { return []; }
      AsgRanks(k, rk, s);
      var vis := GetVis(s);
      ghost var c1 := cache;
      assert forall w: World :: Models(w, c1) ==> Look(w, Vis(s)) == c1[Vis(s)];
      if vis == 0 { return []; }
      var rev := ExprValue(d.revDep, n);
      ghost var c2 := cache;
      assert forall w: World :: Models(w, c2) ==> Models(w, c1);
      if vis == 2 {
        if d.choice.Some? { return [2]; }
        if rev == 0 {
          var promote := PromotesMValue(s, n);
          assert forall w: World :: Models(w, cache) ==> Models(w, c2);
          return if promote then [0, 2] else [0, 1, 2];
        }
        if rev == 2 { return [2]; }
        var promote := PromotesMValue(s, n);
        assert forall w: World :: Models(w, cache) ==> Models(w, c2);
        return if promote then [2] else [1, 2];
      }
      if rev == 0 {
        var weak := ExprValue(d.weakRevDep, n);
        assert forall w: World :: Models(w, cache) ==> Models(w, c2);
        return if weak != 2 then [0, 1] else [0, 2];
      }
      v := if rev == 2 then [2] else [1];
    }

    method GetChoiceAssignable(c: nat) returns (v: seq<Tri>)
      requires Valid()
      modifies this`cache
      ensures Valid() && Grows(old(cache), cache) && CAsg(c) in cache && cache[CAsg(c)] == AsgV(v)
    {
      if CAsg(c) !in cache {
        v := FindChoiceAssignable(c);
        Add(k, user, cache, CAsg(c), AsgV(v));
        cache := cache[CAsg(c) := AsgV(v)];
      }
      v := cache[CAsg(c)].asg;
    }

    /** Choice._assignable() */
    method FindChoiceAssignable(c: nat) returns (v: seq<Tri>)
      requires Valid()
      modifies this`cache
      ensures Valid() && Grows(old(cache), cache) && HasVis(cache, C(c))
      ensures forall w: World :: Models(w, cache) ==> CAsgStep(k, c, w) == v
    {
      ChoiceRanks(k, rk, c);
      var vis := GetChoiceVis(c);
      ghost var c1 := cache;
      assert forall w: World :: Models(w, c1) ==> Look(w, CVis(c)) == c1[CVis(c)];
      if vis == 0 {
        v := [];
      } else if vis == 2 {
        var t := ChoiceTypeValue(c, rk(CAsg(c)));
        assert forall w: World :: Models(w, cache) ==> Models(w, c1);
        v := if !k.Ch(c).isOptional then (if t == BOOL then [2] else [1, 2])
             else (if t == BOOL then [0, 2] else [0, 1, 2]);
      } else {
        v := if k.Ch(c).isOptional then [0, 1] else [1];
      }
    }

    // ----- The public attributes: what plain recursive evaluation gives -----

    /** Symbol.visibility */
    method Visibility(s: nat) returns (v: Tri)
      requires Valid()
      modifies this`cache
      ensures Valid() && Grows(old(cache), cache)
      ensures v == Now().vis(s)
    {
      v := GetVis(s);
      Coherent(k, rk, user, cache, Vis(s));
    }

    /** Symbol.tri_value */
    method TriValue(s: nat) returns (v: TriVal)
      requires Valid()
      modifies this`cache
      ensures Valid() && Grows(old(cache), cache)
      ensures v == Now().tri(s)
    {
      v := GetTri(s);
      Coherent(k, rk, user, cache, TriOf(s));
    }

    /** Symbol.str_value */
    method StrValue(s: nat) returns (v: StrVal)
      requires Valid()
      modifies this`cache
      ensures Valid() && Grows(old(cache), cache)
      ensures v == Now().str(s)
    {
      v := GetStr(s);
      Coherent(k, rk, user, cache, StrOf(s));
    }

    /** Choice.visibility */
    method ChoiceVisibility(c: nat) returns (v: Tri)
      requires Valid()
      modifies this`cache
      ensures Valid() && Grows(old(cache), cache)
      ensures v == Now().cvis(c)
    {
      v := GetChoiceVis(c);
      Coherent(k, rk, user, cache, CVis(c));
    }

    /** Choice.selection */
    method Selection(c: nat) returns (v: Option<nat>)
      requires Valid()
      modifies this`cache
      ensures Valid() && Grows(old(cache), cache)
      ensures v == Now().sel(c)
    {
      v := GetSelection(c);
      Coherent(k, rk, user, cache, Sel(c));
    }

    /** Symbol.assignable */
    method Assignable(s: nat) returns (v: seq<Tri>)
      requires Valid()
      modifies this`cache
      ensures Valid() && Grows(old(cache), cache)
      ensures v == AsgStep(k, user, s, Now())
    {
      v := GetAssignable(s);
      Coherent(k, rk, user, cache, Asg(s));
    }

    /** Choice.assignable */
    method ChoiceAssignable(c: nat) returns (v: seq<Tri>)
      requires Valid()
      modifies this`cache
      ensures Valid() && Grows(old(cache), cache)
      ensures v == CAsgStep(k, c, Now())
    {
      v := GetChoiceAssignable(c);
      Coherent(k, rk, user, cache, CAsg(c));
    }

    /** Choice.tri_value */
    method ChoiceMode(c: nat) returns (v: Tri)
      requires Valid()
      modifies this`cache
      ensures Valid() && Grows(old(cache), cache)
      ensures v == ModeOf(k, user, c, Now())
    {
      ChoiceRanks(k, rk, c);
      v := ModeValue(c, rk(Sel(c)));
      NowModels();
    }

    /** expr_value(), for callers outside the evaluator */
    method EvalExpr(e: Expr) returns (v: Tri)
      requires Valid()
      modifies this`cache
      ensures Valid() && Grows(old(cache), cache)
      ensures v == ExprVal(k, user, e, Now())
    {
      v := ExprValue(e, Bound(rk, ExprReads(k, e)));
      NowModels();
    }

    /** Symbol.type */
    method CurrentType(s: nat) returns (t: Type)
      requires Valid()
      modifies this`cache
      ensures Valid() && Grows(old(cache), cache)
      ensures t == SymType(k, user, s, Now())
    {
      t := TypeValue(s, Bound(rk, TypeReads(k, s)));
      NowModels();
    }

    method DefaultLevel(s: nat) returns (v: Tri)
      requires Valid() && BoolTristate(k.Sym(s).origType)
      modifies this`cache
      ensures Valid() && Grows(old(cache), cache)
      ensures v == DefaultTri(k, user, s, Now())
    {
      v := DefaultTriValue(s, Bound(rk, DefaultReads(k, s)));
      NowModels();
    }

    method DefaultString(s: nat) returns (v: Option<string>)
      requires Valid() && !BoolTristate(k.Sym(s).origType)
      modifies this`cache
      ensures Valid() && Grows(old(cache), cache)
      ensures v == DefaultStr(k, user, s, Now())
    {
      v := DefaultStrValue(s, Bound(rk, DefaultReads(k, s)));
      NowModels();
    }

    /** Choice._selection_from_defaults() */
    method SelectionByDefault(c: nat) returns (v: Option<nat>)
      requires Valid()
      modifies this`cache
      ensures Valid() && Grows(old(cache), cache)
      ensures v == SelectionFromDefaults(k, user, c, Now())
    {
      v := DefaultsSelection(c);
      NowModels();
    }

    lemma NowModels()
      requires Valid()
      ensures Models(Now(), cache)
    {
      forall q | q in cache && Readable(q) ensures Look(Now(), q) == cache[q] {
        Coherent(k, rk, user, cache, q);
      }
    }

    // ----- Invalidation -----

    /** Symbol/Choice._invalidate() */
    method Invalidate(i: Item)
      modifies this`cache
      ensures !HasEntry(cache, i) && Grows(cache, old(cache))
      ensures forall q :: q in old(cache) && ItemOf(q) != i ==> q in cache
    {
      cache := map q | q in cache && ItemOf(q) != i :: cache[q];
    }

    /** Kconfig._invalidate_all() */
    method InvalidateAll()
      modifies this`cache
      ensures AllOutOfTable(k, cache) && Grows(cache, old(cache))
      ensures forall q :: q in old(cache) && !InTable(k, ItemOf(q)) ==> q in cache
    {
      cache := map q | q in cache && !InTable(k, ItemOf(q)) :: cache[q];
    }

    /** Symbol/Choice._rec_invalidate(): terminates on any dependency graph, however
        cyclic, and leaves no dependent of an invalidated item with a cached visibility. */
    method RecInvalidate(i: Item)
      requires InTable(k, i)
      modifies this`cache
      ensures Closed(k, old(cache), cache)
      ensures !HasEntry(cache, i) && DependentsClear(k, cache, i)
      decreases VisItems(k, cache) - {i}
    {
      if IsModules(k, i) {
        InvalidateAll();
        AllInvalidated(k, old(cache), cache, i);
        return;
      }
      Invalidate(i);
      var rest := Dependents(k, i);
      while rest != {}
        invariant Pending(k, old(cache), cache, i, rest)
        decreases rest
      {
        var x :| x in rest;
        ghost var before := cache;
        if HasVis(cache, x) {
          VisItemsShrink(k, old(cache), cache, i, x);
          RecInvalidate(x);
        }
        PendingStep(k, old(cache), before, cache, i, rest, x);
        rest := rest - {x};
      }
      PendingDone(k, old(cache), cache, i);
    }

    // ----- User operations -----

    /** Symbol._rec_invalidate_if_has_prompt() */
    method RecInvalidateIfHasPrompt(s: nat)
      requires s < |k.symbols|
      modifies this`cache
      ensures InvalidatedIfPrompt(k, s, old(cache), cache)
    {
      if k.Sym(s).prompts != [] {
        RecInvalidate(S(s));
      }
    }

    /** Symbol.set_value() */
    method SetValue(s: nat, value: UserVal) returns (ok: bool)
      requires Valid() && s < |k.symbols|
      modifies this`user, this`cache, this`symsSet, this`choicesSet
      ensures Valid()
      ensures user == WithValue(k, old(user), s, value)
      ensures ok <==> Acceptable(k, s, Normalize(k, s, value))
      ensures symsSet == if ok then old(symsSet) + {s} else old(symsSet)
      ensures choicesSet == if ok && k.Sym(s).choice.Some? && Normalize(k, s, value) == Level(2)
                            then old(choicesSet) + {k.Sym(s).choice.value} else old(choicesSet)
    {
      var x := Normalize(k, s, value);
      ghost var u := user;
      WithValueValid(k, user, s, value);
      if Get(user.vals, s) == Some(x) && k.Sym(s).choice.None? {
        symsSet := symsSet + {s};
        return true;
      }
      if !Acceptable(k, s, x) {
        return false;
      }
      user := user.(vals := user.vals[s := x]);
      symsSet := symsSet + {s};
      ok := true;
      if k.Sym(s).choice.Some? && x == Level(2) {
        var c := k.Sym(s).choice.value;
        user := user.(sels := user.sels[c := s]);
        choicesSet := choicesSet + {c};
        RecInvalidate(C(c));
        ChoiceSymChange(k, u, user, s, c, old(cache), cache);
      } else {
        RecInvalidateIfHasPrompt(s);
        SymChange(k, u, user, s, old(cache), cache);
      }
    }

    /** Symbol.unset_value() */
    method UnsetValue(s: nat)
      requires Valid() && s < |k.symbols|
      modifies this`user, this`cache
      ensures Valid()
      ensures user == WithoutValue(old(user), s)
    {
      if s in user.vals {
        ghost var u := user;
        user := WithoutValue(user, s);
        RecInvalidateIfHasPrompt(s);
        SymChange(k, u, user, s, old(cache), cache);
      } else {
        assert user.vals - {s} == user.vals;
      }
    }

    /** Choice.set_value() */
    method SetMode(c: nat, t: Tri) returns (ok: bool)
      requires Valid() && c < |k.choices|
      modifies this`user, this`cache, this`choicesSet
      ensures Valid()
      ensures user == WithMode(k, old(user), c, t)
      ensures ok <==> ModeAcceptable(k, c, t)
      ensures choicesSet == if ok then old(choicesSet) + {c} else old(choicesSet)
    {
      if Get(user.modes, c) == Some(t) {
        choicesSet := choicesSet + {c};
        assert user.modes[c := t] == user.modes;
        return true;
      }
      if !ModeAcceptable(k, c, t) {
        return false;
      }
      ghost var u := user;
      user := user.(modes := user.modes[c := t]);
      choicesSet := choicesSet + {c};
      ghost var before := cache;
      RecInvalidate(C(c));
      ClosedKeeps(k, u, before, cache);
      ChangeAfterInvalidation(k, u, user, C(c), cache);
      ok := true;
    }

    /** Choice.unset_value() */
    method UnsetMode(c: nat)
      requires Valid() && c < |k.choices|
      modifies this`user, this`cache
      ensures Valid()
      ensures user == WithoutMode(old(user), c)
    {
      if c in user.modes || c in user.sels {
        ghost var u := user;
        user := WithoutMode(user, c);
        ghost var before := cache;
        RecInvalidate(C(c));
        ClosedKeeps(k, u, before, cache);
        ChangeAfterInvalidation(k, u, user, C(c), cache);
      } else {
        assert user.modes - {c} == user.modes && user.sels - {c} == user.sels;
      }
    }
  }

  /** The items that have a cached visibility. */
  ghost function VisItems(k: Kconfig, cache: Cache): set<Item> { set i | i in Items(k) && HasVis(cache, i) }

  /** `i` has been invalidated and its dependents are being invalidated: only those in
      `rest` may still have a cached visibility; all else that was lost is complete. */
  ghost predicate Pending(k: Kconfig, before: Cache, after: Cache, i: Item, rest: set<Item>) {
    && Grows(after, before)
    && (forall q :: q in before && q !in after ==> !HasEntry(after, ItemOf(q)))
    && (forall x :: x != i && HasEntry(before, x) && !HasEntry(after, x) ==> DependentsClear(k, after, x))
    && !HasEntry(after, i)
    && rest <= Dependents(k, i)
    && (forall x :: x in Dependents(k, i) && x !in rest ==> !HasVis(after, x))
  }

  lemma EntriesShrink(after: Cache, before: Cache, i: Item)
    requires Grows(after, before)
    ensures HasEntry(after, i) ==> HasEntry(before, i)
    ensures HasVis(after, i) ==> HasVis(before, i)
  {
  }

  lemma DependentsStayClear(k: Kconfig, after: Cache, before: Cache, i: Item)
    requires Grows(after, before) && DependentsClear(k, before, i)
    ensures DependentsClear(k, after, i)
  {
  }

  lemma VisItemsShrink(k: Kconfig, before: Cache, after: Cache, i: Item, x: Item)
    requires Grows(after, before) && !HasEntry(after, i) && HasVis(after, x) && x in Items(k)
    ensures VisItems(k, after) - {x} < VisItems(k, before) - {i}
  {
    assert HasEntry(after, x);
    assert VisItems(k, after) <= VisItems(k, before);
    assert x in VisItems(k, before) - {i} && x !in VisItems(k, after) - {x};
    assert i !in VisItems(k, after) by {
      if HasVis(after, i) { assert HasEntry(after, i); }
    }
  }

  lemma PendingStep(k: Kconfig, a: Cache, b: Cache, c: Cache, i: Item, rest: set<Item>, x: Item)
    requires Pending(k, a, b, i, rest) && x in rest
    requires if HasVis(b, x) then Closed(k, b, c) && !HasEntry(c, x) else c == b
    ensures Pending(k, a, c, i, rest - {x})
  {
    forall q | q in a && q !in c ensures !HasEntry(c, ItemOf(q)) {
      EntriesShrink(c, b, ItemOf(q));
    }
    forall y | y != i && HasEntry(a, y) && !HasEntry(c, y) ensures DependentsClear(k, c, y) {
      if !HasEntry(b, y) { DependentsStayClear(k, c, b, y); }
    }
    EntriesShrink(c, b, i);
    forall y | y in Dependents(k, i) && y !in rest - {x} ensures !HasVis(c, y) {
      EntriesShrink(c, b, y);
      if y == x && HasVis(c, x) { assert HasEntry(c, x); }
    }
  }

  lemma PendingDone(k: Kconfig, before: Cache, after: Cache, i: Item)
    requires Pending(k, before, after, i, {}) && !IsModules(k, i)
    ensures Closed(k, before, after) && DependentsClear(k, after, i)
  {
  }

  lemma AllInvalidated(k: Kconfig, before: Cache, after: Cache, i: Item)
    requires AllOutOfTable(k, after) && Grows(after, before) && InTable(k, i)
    requires forall q :: q in before && !InTable(k, ItemOf(q)) ==> q in after
    ensures Closed(k, before, after) && !HasEntry(after, i) && DependentsClear(k, after, i)
  {
    forall x, y | x in Dependents(k, y) ensures !HasVis(after, x) {
      assert InTable(k, x);
    }
  }

  ghost predicate InvalidatedIfPrompt(k: Kconfig, s: nat, before: Cache, after: Cache) {
    if k.Sym(s).prompts == [] then after == before
    else Closed(k, before, after) && !HasEntry(after, S(s)) && DependentsClear(k, after, S(s))
  }

  /** A change of the user value of a symbol, with the invalidation that goes with it. */
  lemma SymChange(k: Kconfig, u: User, u': User, s: nat, before: Cache, after: Cache)
    requires ChoicesOk(k) && ChoiceEdges(k) && ValidUser(k, u) && ValidUser(k, u')
    requires s < |k.symbols| && ChangedAt(k, u, u', S(s))
    requires CacheInv(k, u, before) && InvalidatedIfPrompt(k, s, before, after)
    ensures CacheInv(k, u', after)
  {
    if k.Sym(s).prompts == [] {
      ChangeOfPromptless(k, u, u', s, after);
    } else {
      ClosedKeeps(k, u, before, after);
      ChangeAfterInvalidation(k, u, u', S(s), after);
    }
  }

  /** Selecting a choice symbol changes the symbol's value and the choice's selection; the
      symbol depends on the choice, so invalidating the choice covers both.  A symbol that
      does not can never be visible, and then its user value has no effect. */
  lemma ChoiceSymChange(k: Kconfig, u: User, u': User, s: nat, c: nat, before: Cache, cache: Cache)
    requires ChoicesOk(k) && ChoiceEdges(k) && ValidUser(k, u) && ValidUser(k, u')
    requires k.Sym(s).choice == Some(c) && InTable(k, S(s)) && InTable(k, C(c))
    requires u'.modes == u.modes
    requires forall x: nat :: x != s ==> Get(u.vals, x) == Get(u'.vals, x)
    requires forall x: nat :: x != c ==> Get(u.sels, x) == Get(u'.sels, x)
    requires CacheInv(k, u, before) && Closed(k, before, cache)
    requires !HasEntry(cache, C(c)) && DependentsClear(k, cache, C(c))
    ensures CacheInv(k, u', cache)
  {
    ClosedKeeps(k, u, before, cache);
    assert S(s) in Items(k) && (S(s) in Dependents(k, C(c)) || NeverVisible(k, s)) by {
      assert C(c) in Deps(k, S(s)) || NeverVisible(k, s);
    }
    forall q, w: World | q in cache && Models(w, cache) ensures Step(k, u', q, w) == Step(k, u, q, w) {
      assert HasEntry(cache, ItemOf(q));
      if Constant(k, q) {
        ConstantStep(k, u, u', q, w, w);
      } else if ItemOf(q) == S(s) {
        HiddenWhenCached(k, u, cache, cache, q, w);
        PromptlessStep(k, u, u', q, w);
      } else {
        StepCongruent(k, u, u', q, w, w);
      }
    }
    UserChange(k, u, u', cache);
  }

  // ----- Whole runs -----

  datatype Op =
    | SetSym(s: nat, v: UserVal) | UnsetSym(s: nat) | SetChoice(c: nat, t: Tri) | UnsetChoice(c: nat)
    | Read(q: Query) | ReadMode(c: nat)

  predicate OpOk(k: Kconfig, op: Op) {
    match op
    case SetSym(s, _) => s < |k.symbols| case UnsetSym(s) => s < |k.symbols|
    case SetChoice(c, _) => c < |k.choices| case UnsetChoice(c) => c < |k.choices|
    case _ => true
  }

  function UserAfter(k: Kconfig, u: User, ops: seq<Op>): User {
    if ops == [] then u
    else
      var u' := UserAfter(k, u, ops[..|ops| - 1]);
      match ops[|ops| - 1]
      case SetSym(s, v) => WithValue(k, u', s, v)
      case UnsetSym(s) => WithoutValue(u', s)
      case SetChoice(c, t) => WithMode(k, u', c, t)
      case UnsetChoice(c) => WithoutMode(u', c)
      case _ => u'
  }

  /** Cached read of any attribute. */
  method ReadAttribute(kc: Kconf, q: Query)
    requires kc.Valid()
    modifies kc`cache
    ensures kc.Valid() && q in kc.cache
  {
    match q
    case Vis(s) => var _ := kc.GetVis(s);
    case TriOf(s) => var _ := kc.GetTri(s);
    case StrOf(s) => var _ := kc.GetStr(s);
    case Asg(s) => var _ := kc.GetAssignable(s);
    case CVis(c) => var _ := kc.GetChoiceVis(c);
    case Sel(c) => var _ := kc.GetSelection(c);
    case CAsg(c) => var _ := kc.GetChoiceAssignable(c);
  }

  /** Cache coherence over whole runs: after any sequence of operations and reads, every
      value still in the cache is what uncached evaluation gives. */
  method Run(kc: Kconf, ops: seq<Op>)
    requires kc.Valid() && forall op <- ops :: OpOk(kc.k, op)
    modifies kc
    ensures kc.Valid() && kc.user == UserAfter(kc.k, old(kc.user), ops)
    ensures forall q :: q in kc.cache ==> kc.cache[q] == Step(kc.k, kc.user, q, Eval(kc.k, kc.user))
  {
    for i := 0 to |ops|
      invariant kc.Valid() && kc.user == UserAfter(kc.k, old(kc.user), ops[..i])
    {
      assert ops[..i + 1][..i] == ops[..i] && ops[i] in ops;
      match ops[i]
      case SetSym(s, v) => var _ := kc.SetValue(s, v);
      case UnsetSym(s) => kc.UnsetValue(s);
      case SetChoice(c, t) => var _ := kc.SetMode(c, t);
      case UnsetChoice(c) => kc.UnsetMode(c);
      case Read(q) => ReadAttribute(kc, q);
      case ReadMode(c) => var _ := kc.ChoiceMode(c);
    }
    assert ops[..|ops|] == ops;
    forall q | q in kc.cache ensures kc.cache[q] == Step(kc.k, kc.user, q, Eval(kc.k, kc.user)) {
      Coherent(kc.k, kc.rk, kc.user, kc.cache, q);
    }
  }
}

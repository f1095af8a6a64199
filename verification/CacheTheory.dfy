/**
  The invariant that makes memoised evaluation right, and what invalidation must do to
  keep it.

  A cache is right when each cached value is forced by the other cached values: whatever
  the uncached quantities are, the equation gives the value in the cache.  That is what
  short-circuiting and the "has a cached visibility" pruning keep true.
 */
module CacheTheory {
  import opened Model
  import opened Evaluation
  import opened Dependencies

  type Cache = map<Query, Val>

  /** The world `w` agrees with the cache. */
  ghost predicate Models(w: World, cache: Cache) {
    forall q :: q in cache && Readable(q) ==> Look(w, q) == cache[q]
  }

  predicate Fits(q: Query, v: Val) {
    match q
    case Vis(_) => v.LevelV? case CVis(_) => v.LevelV?
    case TriOf(_) => v.TriV? case StrOf(_) => v.StrV?
    case Sel(_) => v.SelV? case Asg(_) => v.AsgV? case CAsg(_) => v.AsgV?
  }

  predicate HasVis(cache: Cache, i: Item) {
    match i case S(s) => Vis(s) in cache case C(c) => CVis(c) in cache
  }

  predicate HasEntry(cache: Cache, i: Item) { exists q <- cache :: ItemOf(q) == i }

  /** Quantities that never change: logical values of non-bool symbols, and the string
      value of a symbol without a type. */
  predicate Constant(k: Kconfig, q: Query) {
    match q
    case TriOf(s) => !BoolTristate(k.Sym(s).origType)
    case Asg(s) => !BoolTristate(k.Sym(s).origType)
    case StrOf(s) => k.Sym(s).origType == UNKNOWN
    case _ => false
  }

  /** The cached values force `v` as the value of `q`. */
  ghost predicate Forced(k: Kconfig, u: User, cache: Cache, q: Query, v: Val) {
    forall w: World :: Models(w, cache) ==> Step(k, u, q, w) == v
  }

  ghost predicate CacheInv(k: Kconfig, u: User, cache: Cache) {
    && (forall q :: q in cache ==> Fits(q, cache[q]))
    && (forall q {:trigger Forced(k, u, cache, q, cache[q])} :: q in cache ==> Forced(k, u, cache, q, cache[q]))
    && (forall q :: q in cache ==> HasVis(cache, ItemOf(q)) || Constant(k, q))
  }

  ghost predicate Grows(a: Cache, b: Cache) { forall q :: q in a ==> q in b && b[q] == a[q] }

  /** The world that has the cached values where there are some, and those of `w` elsewhere. */
  ghost function Override(cache: Cache, w: World): World {
    World(
      (s: nat) => LevelOr(cache, Vis(s), w.vis(s)),
      (s: nat) => if TriOf(s) in cache && cache[TriOf(s)].TriV? then cache[TriOf(s)].tv else w.tri(s),
      (s: nat) => if StrOf(s) in cache && cache[StrOf(s)].StrV? then cache[StrOf(s)].sv else w.str(s),
      (c: nat) => LevelOr(cache, CVis(c), w.cvis(c)),
      (c: nat) => if Sel(c) in cache && cache[Sel(c)].SelV? then cache[Sel(c)].sel else w.sel(c))
  }

  function LevelOr(cache: Cache, q: Query, t: Tri): Tri {
    if q in cache && cache[q].LevelV? then cache[q].t else t
  }

  lemma OverrideAt(cache: Cache, w: World, q: Query)
    requires Readable(q) && (q in cache ==> Fits(q, cache[q]))
    ensures Look(Override(cache, w), q) == if q in cache then cache[q] else Look(w, q)
  {
    var o := Override(cache, w);
    match q
    case Vis(s) => assert o.vis(s) == LevelOr(cache, q, w.vis(s));
    case CVis(c) => assert o.cvis(c) == LevelOr(cache, q, w.cvis(c));
    case _ =>
  }

  lemma OverrideModels(cache: Cache, w: World)
    requires forall q :: q in cache ==> Fits(q, cache[q])
    ensures Models(Override(cache, w), cache)
  {
    forall q | q in cache && Readable(q) ensures Look(Override(cache, w), q) == cache[q] {
      OverrideAt(cache, w, q);
    }
  }

  lemma ForcedAt(k: Kconfig, u: User, cache: Cache, q: Query, e: World)
    requires ChoicesOk(k) && ValidUser(k, u) && CacheInv(k, u, cache) && q in cache
    requires forall r :: r in Reads(k, q) && r in cache && Readable(r) ==> cache[r] == Look(e, r)
    ensures cache[q] == Step(k, u, q, e)
  {
    var w := Override(cache, e);
    OverrideModels(cache, e);
    forall r | r in Reads(k, q) ensures Look(w, r) == Look(e, r) {
      if Readable(r) { OverrideAt(cache, e, r); }
    }
    StepCongruent(k, u, u, q, w, e);
    assert Forced(k, u, cache, q, cache[q]);
  }

  /** Coherence: under the invariant every cached value is what plain recursive
      evaluation gives. */
  lemma {:induction false} Coherent(k: Kconfig, rk: Rank, u: User, cache: Cache, q: Query)
    requires ChoicesOk(k) && WellRanked(k, rk) && ValidUser(k, u)
    requires CacheInv(k, u, cache) && q in cache
    ensures cache[q] == Step(k, u, q, Eval(k, u))
    ensures Readable(q) ==> cache[q] == Look(Eval(k, u), q)
    decreases rk(q)
  {
    var e := Eval(k, u);
    forall r | r in Reads(k, q) && r in cache && Readable(r) ensures cache[r] == Look(e, r) {
      Coherent(k, rk, u, cache, r);
    }
    ForcedAt(k, u, cache, q, e);
    if Readable(q) { EvalAt(k, rk, u, q); }
  }

  /** Only one value of a quantity can be forced. */
  lemma ForcedOnce(k: Kconfig, u: User, cache: Cache, q: Query, v: Val)
    requires CacheInv(k, u, cache) && Forced(k, u, cache, q, v)
    ensures q in cache ==> cache[q] == v
  {
    OverrideModels(cache, NoWorld);
    assert Models(Override(cache, NoWorld), cache);
    assert q in cache ==> Forced(k, u, cache, q, cache[q]);
  }

  /** A value forced by the cache may be added to it. */
  lemma Add(k: Kconfig, u: User, cache: Cache, q: Query, v: Val)
    requires CacheInv(k, u, cache) && Forced(k, u, cache, q, v) && Fits(q, v)
    requires q.Vis? || q.CVis? || HasVis(cache, ItemOf(q)) || Constant(k, q)
    ensures CacheInv(k, u, cache[q := v]) && Grows(cache, cache[q := v])
  {
    ForcedOnce(k, u, cache, q, v);
    var c' := cache[q := v];
    forall r | r in c' ensures Forced(k, u, c', r, c'[r]) {
      forall w: World | Models(w, c') ensures Step(k, u, r, w) == c'[r] {
        assert Models(w, cache);
        assert r in cache ==> Forced(k, u, cache, r, cache[r]);
      }
    }
  }

  // ----- Invalidation -----

  predicate AllOutOfTable(k: Kconfig, cache: Cache) { forall q <- cache :: !InTable(k, ItemOf(q)) }

  /** Nothing that depends on `i` has a cached visibility. */
  predicate DependentsClear(k: Kconfig, cache: Cache, i: Item) {
    && (forall x <- Dependents(k, i) :: !HasVis(cache, x))
    && (IsModules(k, i) ==> AllOutOfTable(k, cache))
  }

  /** `after` is a complete invalidation of `before`: entries go item by item, and when an
      item has lost its entries no dependent of it has a cached visibility. */
  ghost predicate Closed(k: Kconfig, before: Cache, after: Cache) {
    && Grows(after, before)
    && (forall q :: q in before && q !in after ==> !HasEntry(after, ItemOf(q)))
    && (forall i :: HasEntry(before, i) && !HasEntry(after, i) ==> DependentsClear(k, after, i))
  }

  /** A complete invalidation keeps the invariant. */
  lemma ClosedKeeps(k: Kconfig, u: User, before: Cache, after: Cache)
    requires ChoicesOk(k) && ChoiceEdges(k) && ValidUser(k, u)
    requires CacheInv(k, u, before) && Closed(k, before, after)
    ensures CacheInv(k, u, after)
  {
    forall q | q in after
      ensures HasVis(after, ItemOf(q)) || Constant(k, q)
      ensures Forced(k, u, after, q, after[q])
    {
      ClosedKeepsVis(k, u, before, after, q);
      forall w: World | Models(w, after) ensures Step(k, u, q, w) == after[q] {
        var o := Override(before, w);
        OverrideModels(before, w);
        forall r | r in Matters(k, q) ensures Look(w, r) == Look(o, r) {
          if Readable(r) {
            OverrideAt(before, w, r);
            if r in before { ReadsSurvive(k, before, after, q, r); }
          }
        }
        if Constant(k, q) {
          ConstantStep(k, u, u, q, w, o);
        } else {
          HiddenWhenCached(k, u, before, after, q, w);
          StepMatters(k, u, u, q, w, o);
        }
        assert Forced(k, u, before, q, before[q]);
      }
    }
  }

  /** Worlds that agree with a cached visibility agree that a symbol is never visible. */
  lemma HiddenWhenCached(k: Kconfig, u: User, before: Cache, after: Cache, q: Query, w: World)
    requires CacheInv(k, u, before) && Grows(after, before) && HasVis(after, ItemOf(q)) && Models(w, after)
    ensures HiddenIn(k, q, w) && HiddenIn(k, q, Override(before, w))
  {
    if ItemOf(q).S? && NeverVisible(k, ItemOf(q).s) {
      var s, o := ItemOf(q).s, Override(before, w);
      OverrideModels(before, w);
      OverrideAt(before, w, Vis(s));
      assert Forced(k, u, before, Vis(s), before[Vis(s)]);
      NeverVisibleIs(k, u, s, o);
    }
  }

  lemma ClosedKeepsVis(k: Kconfig, u: User, before: Cache, after: Cache, q: Query)
    requires CacheInv(k, u, before) && Closed(k, before, after) && q in after
    ensures HasVis(after, ItemOf(q)) || Constant(k, q)
  {
    assert HasEntry(after, ItemOf(q));
  }

  lemma ConstantReadsNothing(k: Kconfig, q: Query)
    requires Constant(k, q)
    ensures Reads(k, q) == {}
  {
  }

  lemma OutOfTableReads(k: Kconfig, q: Query, r: Query)
    requires !InTable(k, ItemOf(q)) && r in Reads(k, q)
    ensures ItemOf(r) == ItemOf(q)
  {
  }

  /** What a surviving entry reads has survived too. */
  lemma ReadsSurvive(k: Kconfig, before: Cache, after: Cache, q: Query, r: Query)
    requires ChoiceEdges(k) && Closed(k, before, after)
    requires q in after && r in before && r in Matters(k, q)
    requires HasVis(after, ItemOf(q)) || Constant(k, q)
    ensures r in after
  {
    if r !in after {
      if Constant(k, q) { ConstantReadsNothing(k, q); }
      assert HasEntry(before, ItemOf(r)) && !HasEntry(after, ItemOf(r));
      assert DependentsClear(k, after, ItemOf(r));
      assert HasEntry(after, ItemOf(q));
      if !InTable(k, ItemOf(q)) {
        OutOfTableReads(k, q, r);
      } else {
        assert ItemOf(q) in Items(k);
        ReadsAreDeps(k, q, r);
      }
    }
  }

  // ----- Changing the user state -----

  /** If the surviving equations cannot see the change, the invariant carries over. */
  lemma UserChange(k: Kconfig, u: User, u': User, cache: Cache)
    requires CacheInv(k, u, cache)
    requires forall q, w: World :: q in cache && Models(w, cache) ==> Step(k, u', q, w) == Step(k, u, q, w)
    ensures CacheInv(k, u', cache)
  {
    forall q | q in cache ensures Forced(k, u', cache, q, cache[q]) {
      assert Forced(k, u, cache, q, cache[q]);
    }
  }

  /** The user values of `s` changed, and possibly the user selection or mode of `c`. */
  ghost predicate ChangedAt(k: Kconfig, u: User, u': User, i: Item) {
    && (forall s: nat :: S(s) != i ==> Get(u.vals, s) == Get(u'.vals, s))
    && (forall c: nat :: C(c) != i ==> Get(u.sels, c) == Get(u'.sels, c) && Get(u.modes, c) == Get(u'.modes, c))
  }

  lemma ConstantStep(k: Kconfig, u: User, u': User, q: Query, w: World, w': World)
    requires Constant(k, q)
    ensures Step(k, u, q, w) == Step(k, u', q, w')
  {
  }

  /** After the invalidation of `i`, a change of the user data of `i` is invisible. */
  lemma ChangeAfterInvalidation(k: Kconfig, u: User, u': User, i: Item, cache: Cache)
    requires ChoicesOk(k) && ChoiceEdges(k) && ValidUser(k, u) && ValidUser(k, u')
    requires InTable(k, i) && ChangedAt(k, u, u', i)
    requires !HasEntry(cache, i) && DependentsClear(k, cache, i)
    requires CacheInv(k, u, cache)
    ensures CacheInv(k, u', cache)
  {
    forall q, w: World | q in cache && Models(w, cache) ensures Step(k, u', q, w) == Step(k, u, q, w) {
      assert HasEntry(cache, ItemOf(q));
      if Constant(k, q) {
        ConstantStep(k, u, u', q, w, w);
      } else {
        forall c | CVis(c) in Matters(k, q) ensures Get(u.modes, c) == Get(u'.modes, c) {
          if C(c) == i { ReadsNeedEdge(k, cache, i, q, CVis(c)); }
        }
        HiddenWhenCached(k, u, cache, cache, q, w);
        StepMatters(k, u, u', q, w, w);
      }
    }
    UserChange(k, u, u', cache);
  }

  lemma ReadsNeedEdge(k: Kconfig, cache: Cache, i: Item, q: Query, r: Query)
    requires ChoiceEdges(k) && InTable(k, i) && DependentsClear(k, cache, i)
    requires q in cache && r in Matters(k, q) && ItemOf(r) == i && HasVis(cache, ItemOf(q))
    ensures ItemOf(q) == i
  {
    if ItemOf(q) != i {
      if !InTable(k, ItemOf(q)) {
        OutOfTableReads(k, q, r);
      } else {
        assert ItemOf(q) in Items(k);
        ReadsAreDeps(k, q, r);
      }
    }
  }

  /** A symbol without a prompt ignores its user value, so nothing needs invalidation. */
  lemma ChangeOfPromptless(k: Kconfig, u: User, u': User, s: nat, cache: Cache)
    requires ChoicesOk(k) && ValidUser(k, u) && ValidUser(k, u')
    requires ChangedAt(k, u, u', S(s)) && k.Sym(s).prompts == []
    requires CacheInv(k, u, cache)
    ensures CacheInv(k, u', cache)
  {
    forall q, w: World | q in cache && Models(w, cache) ensures Step(k, u', q, w) == Step(k, u, q, w) {
      if Constant(k, q) {
        ConstantStep(k, u, u', q, w, w);
      } else if ItemOf(q) == S(s) {
        assert Forced(k, u, cache, Vis(s), cache[Vis(s)]);
        assert w.vis(s) == 0;
        assert forall c: nat :: C(c) != S(s);
        PromptlessStep(k, u, u', q, w);
      } else {
        StepCongruent(k, u, u', q, w, w);
      }
    }
    UserChange(k, u, u', cache);
  }

  lemma PromptlessStep(k: Kconfig, u: User, u': User, q: Query, w: World)
    requires ItemOf(q).S? && w.vis(ItemOf(q).s) == 0
    requires ChoicesOk(k) && ValidUser(k, u) && ValidUser(k, u')
    requires forall c: nat :: Get(u.modes, c) == Get(u'.modes, c)
    ensures Step(k, u', q, w) == Step(k, u, q, w)
  {
    forall qs ensures SameModes(k, u, u', w, w, qs) { SameModesHere(k, u, u', w, qs); }
    match q
    case Vis(s) => VisCongruent(k, u, u', s, w, w);
    case Asg(s) => AsgCongruent(k, u, u', s, w, w);
    case TriOf(s) =>
      var d := k.Sym(s);
      if BoolTristate(d.origType) && d.choice.None? {
        PlainTriCongruent(k, u, u', s, w, w);
      }
    case StrOf(s) =>
      if !BoolTristate(k.Sym(s).origType) {
        TypedStrCongruent(k, u, u', s, w, w);
      }
  }
}

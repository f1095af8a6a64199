/**
  Writing .config files and minimal .config files, and what loading them back gives.

  The loaded user state differs from the one that was written; the theorems say that the
  old values still solve the equations of the new user state, so that they are its values.
 */
module RoundTrip {
  import opened Model
  import opened Evaluation
  import opened Engine
  import opened Strings
  import opened ConfigFile
  import opened Values

  // ----- The writers -----

  /** Symbol.config_string, None if it is empty */
  function ConfigLine(k: Kconfig, s: nat, v: StrVal): Option<Line> {
    var d := k.Sym(s);
    if !v.write then None
    else if BoolTristate(d.origType) then Some(if v.val != "n" then Assign(d.name, v.val) else NotSet(d.name))
    else if d.origType == STRING then Some(Assign(d.name, Quoted(v.val)))
    else Some(Assign(d.name, v.val))
  }

  function OptLine(l: Option<Line>): seq<Line> { if l.Some? then [l.value] else [] }

  /** The lines of the first `n` symbols, for a writer that gives symbol `s` the line `f(s)`. */
  function Lines(f: nat -> Option<Line>, n: nat): seq<Line> {
    if n == 0 then [] else Lines(f, n - 1) + OptLine(f(n - 1))
  }

  /** Kconfig._config_contents(), without the comments */
  function FullLine(k: Kconfig, w: World): nat -> Option<Line> { (s: nat) => ConfigLine(k, s, w.str(s)) }

  function FullConfig(k: Kconfig, w: World): seq<Line> { Lines(FullLine(k, w), |k.symbols|) }

  /** Symbol._str_default() */
  function StrDefault(k: Kconfig, u: User, s: nat, w: World): string {
    var d := k.Sym(s);
    if BoolTristate(d.origType) then
      if d.choice.Some? then "n"
      else
        var v := Max(ExprVal(k, u, d.revDep, w), Max(ExprVal(k, u, d.weakRevDep, w), DefaultTri(k, u, s, w)));
        TriStr(if v == 1 && SymType(k, u, s, w) == BOOL then 2 else v)
    else if d.origType != UNKNOWN && DefaultStr(k, u, s, w).Some? then DefaultStr(k, u, s, w).value
    else ""
  }

  /** The symbols that _min_config_contents() writes. */
  predicate MinKeeps(k: Kconfig, u: User, s: nat, w: World) {
    var d := k.Sym(s);
    && !(d.choice.None? && w.vis(s) <= ExprVal(k, u, d.revDep, w))
    && w.str(s).val != StrDefault(k, u, s, w)
    && !(d.choice.Some? && !k.Ch(d.choice.value).isOptional
         && SelectionFromDefaults(k, u, d.choice.value, w) == Some(s)
         && d.origType == BOOL && w.tri(s).val == 2)
  }

  function MinLine(k: Kconfig, u: User, w: World): nat -> Option<Line> {
    (s: nat) => if MinKeeps(k, u, s, w) then ConfigLine(k, s, w.str(s)) else None
  }

  /** Kconfig._min_config_contents() */
  function MinConfig(k: Kconfig, u: User, w: World): seq<Line> { Lines(MinLine(k, u, w), |k.symbols|) }

  // ----- Reading a written line back -----

  /** Every symbol has its own name. */
  ghost predicate NamesOk(k: Kconfig) { forall s: nat :: s < |k.symbols| ==> Lookup(k, k.Sym(s).name) == Some(s) }

  /** The value can be told from its line: no trailing blanks on numbers, only letters,
      digits and underscores in keys. */
  predicate Writable(t: Type, val: string) {
    (IntHex(t) ==> RStrip(val) == val) && (t == KEY ==> IsWord(val))
  }

  lemma NothingToStrip(s: string)
    requires s != [] ==> !Blank(s[|s| - 1])
    ensures RStrip(s) == s
  {
  }

  /** The user value that a written value turns into. */
  function ReadBack(t: Type, val: string): UserVal {
    if BoolTristate(t) then Level(if val == "n" then 0 else if val == "m" then 1 else 2) else Text(val)
  }

  lemma LineReadsBack(k: Kconfig, s: nat, v: StrVal)
    requires NamesOk(k) && s < |k.symbols| && v.write && k.Sym(s).origType != UNKNOWN
    requires BoolTristate(k.Sym(s).origType) ==> v.val in {"n", "y"} || (v.val == "m" && k.Sym(s).origType == TRISTATE)
    requires Writable(k.Sym(s).origType, v.val)
    ensures ConfigLine(k, s, v).Some?
    ensures Assigned(k, ConfigLine(k, s, v).value) == CheckedAssignment(k, s, ReadBack(k.Sym(s).origType, v.val))
  {
    var t, val := k.Sym(s).origType, v.val;
    if BoolTristate(t) {
      NothingToStrip(val);
    } else if t == STRING {
      NothingToStrip(Quoted(val));
      ConfStringRoundTrip(val);
    } else if t == KEY {
      if val != [] { assert val[|val| - 1] in val; }
      NothingToStrip(val);
      KeyRoundTrip(val);
    }
  }

  /** A line of a symbol assigns nothing to other symbols. */
  lemma LineIsOwn(k: Kconfig, s: nat, v: StrVal)
    requires NamesOk(k) && s < |k.symbols| && ConfigLine(k, s, v).Some?
    ensures var a := Assigned(k, ConfigLine(k, s, v).value); a.Some? ==> a.value.s == s
  {
  }

  /** The assignment that an optional line makes. */
  function Effect(k: Kconfig, l: Option<Line>): Option<Assignment> {
    if l.Some? then Assigned(k, l.value) else None
  }

  /** The lines of a writer assign only to their own symbols. */
  ghost predicate OwnLines(k: Kconfig, f: nat -> Option<Line>) {
    forall s: nat {:trigger Effect(k, f(s))} ::
      s < |k.symbols| && Effect(k, f(s)).Some? ==> Effect(k, f(s)).value.s == s
  }

  function EffectOn(k: Kconfig, l: Option<Line>, s: nat): Option<UserVal> {
    var a := Effect(k, l);
    if a.Some? && a.value.s == s then Some(a.value.v) else None
  }

  lemma LastValOfExtension(k: Kconfig, lines: seq<Line>, l: Option<Line>, s: nat)
    ensures LastVal(k, lines + OptLine(l), s) == OrElse(EffectOn(k, l, s), LastVal(k, lines, s))
  {
    var more := lines + OptLine(l);
    if l.Some? { assert more[..|lines|] == lines; } else { assert more == lines; }
  }

  /** The symbol of choice `c` that an optional line sets to y. */
  function SelIn(k: Kconfig, l: Option<Line>, c: nat): Option<nat> {
    var a := Effect(k, l);
    if a.Some? && a.value.v == Level(2) && k.Sym(a.value.s).choice == Some(c) then Some(a.value.s) else None
  }

  lemma LastSelOfExtension(k: Kconfig, lines: seq<Line>, l: Option<Line>, c: nat)
    ensures LastSel(k, lines + OptLine(l), c) == OrElse(SelIn(k, l, c), LastSel(k, lines, c))
  {
    var more := lines + OptLine(l);
    if l.Some? { assert more[..|lines|] == lines; } else { assert more == lines; }
  }

  function EffectVal(k: Kconfig, l: Option<Line>): Option<UserVal> {
    if Effect(k, l).Some? then Some(Effect(k, l).value.v) else None
  }

  /** The user value that the written file gives to `s`. */
  lemma WrittenLastVal(k: Kconfig, f: nat -> Option<Line>, n: nat, s: nat)
    requires OwnLines(k, f) && n <= |k.symbols|
    ensures LastVal(k, Lines(f, n), s) == if s < n then EffectVal(k, f(s)) else None
  {
    var last, entry := (i: nat) => LastVal(k, Lines(f, i), s), (i: nat) => EffectOn(k, f(i), s);
    forall i: nat | i < n ensures last(i + 1) == OrElse(entry(i), last(i)) {
      LastValOfExtension(k, Lines(f, i), f(i), s);
    }
    forall i: nat | i < n && i != s ensures entry(i) == None {
      assert Effect(k, f(i)).Some? ==> Effect(k, f(i)).value.s == i;
    }
    assert s < n && Effect(k, f(s)).Some? ==> Effect(k, f(s)).value.s == s;
    LastWins(last, entry, n, s);
  }

  /** The selection in the file: a symbol whose line sets it to y... */
  lemma WrittenLastSel(k: Kconfig, f: nat -> Option<Line>, n: nat, c: nat)
    requires OwnLines(k, f) && n <= |k.symbols|
    ensures var y := LastSel(k, Lines(f, n), c); y.Some? ==>
      y.value < n && k.Sym(y.value).choice == Some(c) && Effect(k, f(y.value)) == Some(Assignment(y.value, Level(2)))
  {
    var last, entry := (i: nat) => LastSel(k, Lines(f, i), c), (i: nat) => SelIn(k, f(i), c);
    forall i: nat | i < n ensures last(i + 1) == OrElse(entry(i), last(i)) {
      LastSelOfExtension(k, Lines(f, i), f(i), c);
    }
    SomeWins(last, entry, n);
    if last(n).Some? {
      var i: nat :| i < n && entry(i) == last(n);
      assert Effect(k, f(i)).Some? ==> Effect(k, f(i)).value.s == i;
    }
  }

  /** ... if there is one. */
  lemma WrittenSomeSel(k: Kconfig, f: nat -> Option<Line>, n: nat, c: nat, s: nat)
    requires s < n && Effect(k, f(s)) == Some(Assignment(s, Level(2))) && k.Sym(s).choice == Some(c)
    ensures LastSel(k, Lines(f, n), c).Some?
  {
    var last, entry := (i: nat) => LastSel(k, Lines(f, i), c), (i: nat) => SelIn(k, f(i), c);
    forall i: nat | i < n ensures last(i + 1) == OrElse(entry(i), last(i)) {
      LastSelOfExtension(k, Lines(f, i), f(i), c);
    }
    SomeWins(last, entry, n);
    assert entry(s).Some?;
  }

  // ----- The configurations that the theorems are about -----

  /** Choices are proper (their symbols have prompts only inside them), and `option env`
      symbols have no prompt. */
  ghost predicate GoodChoices(k: Kconfig) {
    && (forall c: nat :: c < |k.choices| ==> ProperChoice(k, c))
    && (forall s: nat :: k.Sym(s).auto ==> k.Sym(s).prompts == [])
  }

  /** All choices are in the same mode. */
  ghost predicate ModesAlike(k: Kconfig, u: User, u': User, w: World) {
    forall c: nat :: ModeOf(k, u', c, w) == ModeOf(k, u, c, w)
  }

  lemma ModesAgree(k: Kconfig, u: User, u': User, w: World, qs: set<Query>)
    requires ModesAlike(k, u, u', w)
    ensures SameModes(k, u', u, w, w, qs)
  {
  }

  lemma MembersAreBool(k: Kconfig)
    requires ChoicesOk(k) && GoodChoices(k)
    ensures forall s: nat :: k.Sym(s).choice.Some? ==> s < |k.symbols| && BoolTristate(k.Sym(s).origType)
  {
    forall s: nat | k.Sym(s).choice.Some? ensures BoolTristate(k.Sym(s).origType) {
      var c := k.Sym(s).choice.value;
      assert s in k.Ch(c).syms && ProperChoice(k, c);
    }
  }

  /** The values of choice symbols: never above the mode, and m only in m mode. */
  lemma MemberForm(k: Kconfig, u: User, w: World, c: nat, s: nat)
    requires ChoicesOk(k) && GoodChoices(k) && Solves(k, u, w) && k.Sym(s).choice == Some(c)
    ensures c < |k.choices| && BoolTristate(k.Sym(s).origType) && BoolTristate(k.Ch(c).origType)
    ensures w.vis(s) <= ModeOf(k, u, c, w) && (ModeOf(k, u, c, w) == 2 ==> w.vis(s) != 1)
    ensures w.tri(s) == ChoiceTriStep(u, s, c, w) && (w.vis(s) == 1 ==> k.Sym(s).origType == TRISTATE)
    ensures w.tri(s).val != 0 ==> w.tri(s).val == w.vis(s) == ModeOf(k, u, c, w)
  {
    assert s in k.Ch(c).syms && ProperChoice(k, c);
    SolvesSymbol(k, u, w, s);
    ChoiceSymVisibility(k, u, c, s, w);
  }

  // ----- When do the old values solve the new equations? -----

  /** The three kinds of equations that look at the user state. */
  lemma SolvesFromOwn(k: Kconfig, u: User, u': User, w: World)
    requires ChoicesOk(k) && ValidUser(k, u) && ValidUser(k, u') && Solves(k, u, w) && ModesAlike(k, u, u', w)
    requires forall s: nat :: BoolTristate(k.Sym(s).origType) && k.Sym(s).choice.None? ==>
               PlainTriStep(k, u', s, w) == PlainTriStep(k, u, s, w)
    requires forall s: nat :: !BoolTristate(k.Sym(s).origType) && k.Sym(s).origType != UNKNOWN ==>
               TypedStrStep(k, u', s, w) == TypedStrStep(k, u, s, w)
    requires forall s: nat :: k.Sym(s).choice.Some? ==>
               ChoiceTriStep(u', s, k.Sym(s).choice.value, w) == ChoiceTriStep(u, s, k.Sym(s).choice.value, w)
    requires forall c: nat :: SelStep(k, u', c, w) == SelStep(k, u, c, w)
    ensures Solves(k, u', w)
  {
    forall q | Readable(q) ensures Look(w, q) == Step(k, u', q, w) {
      assert Look(w, q) == Step(k, u, q, w);
      ModesAgree(k, u, u', w, Reads(k, q));
      match q
      case Vis(s) => VisCongruent(k, u', u, s, w, w);
      case CVis(c) => CVisCongruent(k, u', u, c, w, w);
      case TriOf(s) => assert k.Sym(s).choice.None? || k.Sym(s).choice.Some?;
      case _ =>
    }
  }

  /** A plain symbol keeps its value if its user value is the value it had. */
  lemma KeptTri(k: Kconfig, u: User, u': User, w: World, s: nat)
    requires ChoicesOk(k) && Solves(k, u, w) && ModesAlike(k, u, u', w)
    requires BoolTristate(k.Sym(s).origType) && k.Sym(s).choice.None?
    requires w.vis(s) == 0 || UserLevel(u', s) == Some(w.tri(s).val)
    ensures PlainTriStep(k, u', s, w) == PlainTriStep(k, u, s, w) <==> !Lossy(k, u, w, s)
  {
    SolvesSymbol(k, u, w, s);
    ModesAgree(k, u, u', w, PlainTriReads(k, s));
    if w.vis(s) == 0 {
      PlainTriCongruent(k, u', u, s, w, w);
    } else {
      PromotesCongruent(k, u', u, s, w, w);
    }
  }

  /** The visibility is m, yet a default made the value y: `y` in the file means m. */
  predicate Lossy(k: Kconfig, u: User, w: World, s: nat) {
    && BoolTristate(k.Sym(s).origType) && k.Sym(s).choice.None?
    && w.vis(s) == 1 && w.tri(s).val == 2
    && ExprVal(k, u, k.Sym(s).revDep, w) != 2 && ExprVal(k, u, k.Sym(s).weakRevDep, w) != 2
  }

  /** A number keeps its text if that is its user value, or if it is no valid user value. */
  lemma KeptText(k: Kconfig, u: User, u': User, w: World, s: nat)
    requires ChoicesOk(k) && GoodChoices(k) && ValidUser(k, u) && Solves(k, u, w) && EmptyIsNoNumber(k)
    requires ModesAlike(k, u, u', w)
    requires !BoolTristate(k.Sym(s).origType) && k.Sym(s).origType != UNKNOWN
    requires w.vis(s) != 0 ==>
      UserText(u', s) == if Acceptable(k, s, Text(w.str(s).val)) then Some(w.str(s).val) else None
    ensures TypedStrStep(k, u', s, w) == TypedStrStep(k, u, s, w)
  {
    assert Look(w, StrOf(s)) == Step(k, u, StrOf(s), w);
    ModesAgree(k, u, u', w, DefaultReads(k, s));
    ModesAgree(k, u, u', w, RangeReads(k, s));
    if w.vis(s) == 0 {
      TypedStrCongruent(k, u', u, s, w, w);
    } else {
      VisibleHasPrompt(k, u, w, s);
      DefaultStrCongruent(k, u', u, s, w, w);
      RangeCongruent(k, u', u, s, w, w);
    }
  }

  lemma VisibleHasPrompt(k: Kconfig, u: User, w: World, s: nat)
    requires Solves(k, u, w) && w.vis(s) != 0
    ensures k.Sym(s).prompts != []
  {
    SolvesSymbol(k, u, w, s);
  }

  /** int("") is an error. */
  predicate EmptyIsNoNumber(k: Kconfig) { k.num.parse("", 10).None? && k.num.parse("", 16).None? }

  // ----- Loading what was written -----

  /** The values of a solution have the form that their type demands. */
  lemma ValueForm(k: Kconfig, u: User, w: World, s: nat)
    requires Solves(k, u, w) && BoolTristate(k.Sym(s).origType)
    ensures w.str(s) == StrVal(TriStr(w.tri(s).val), w.tri(s).write)
    ensures k.Sym(s).origType == BOOL ==> w.tri(s).val != 1
    ensures w.vis(s) != 0 ==> w.tri(s).write
  {
    SolvesSymbol(k, u, w, s);
    assert Look(w, StrOf(s)) == Step(k, u, StrOf(s), w);
  }

  lemma TypedForm(k: Kconfig, u: User, w: World, s: nat)
    requires GoodChoices(k) && Solves(k, u, w) && !BoolTristate(k.Sym(s).origType) && k.Sym(s).origType != UNKNOWN
    ensures w.vis(s) != 0 ==> w.str(s).write
  {
    assert Look(w, StrOf(s)) == Step(k, u, StrOf(s), w);
    if w.vis(s) != 0 { VisibleHasPrompt(k, u, w, s); }
  }

  /** Everything that is assumed about a configuration and its values. */
  ghost predicate Savable(k: Kconfig, u: User, w: World) {
    && ChoicesOk(k) && GoodChoices(k) && NamesOk(k) && EmptyIsNoNumber(k)
    && ValidUser(k, u) && Solves(k, u, w)
    && (forall s: nat :: s < |k.symbols| ==> Writable(k.Sym(s).origType, w.str(s).val))
  }

  /** A visible symbol that is written gets its value as its user value. */
  lemma WrittenEffect(k: Kconfig, u: User, w: World, s: nat)
    requires Savable(k, u, w) && s < |k.symbols|
    ensures var l := ConfigLine(k, s, w.str(s)); Effect(k, l).Some? ==> Effect(k, l).value.s == s
    ensures k.Sym(s).origType != UNKNOWN && w.str(s).write ==>
      Effect(k, ConfigLine(k, s, w.str(s))) == CheckedAssignment(k, s, ReadBack(k.Sym(s).origType, w.str(s).val))
  {
    if ConfigLine(k, s, w.str(s)).Some? { LineIsOwn(k, s, w.str(s)); }
    if k.Sym(s).origType != UNKNOWN && w.str(s).write {
      if BoolTristate(k.Sym(s).origType) { ValueForm(k, u, w, s); }
      LineReadsBack(k, s, w.str(s));
    }
  }

  /** The same for bool and tristate symbols, in terms of levels. */
  lemma WrittenLevel(k: Kconfig, u: User, w: World, s: nat)
    requires Savable(k, u, w) && s < |k.symbols| && BoolTristate(k.Sym(s).origType)
    ensures EffectVal(k, ConfigLine(k, s, w.str(s))) == if w.tri(s).write then Some(Level(w.tri(s).val)) else None
  {
    ValueForm(k, u, w, s);
    WrittenEffect(k, u, w, s);
    assert ReadBack(k.Sym(s).origType, TriStr(w.tri(s).val)) == Level(w.tri(s).val);
  }

  lemma WrittenText(k: Kconfig, u: User, w: World, s: nat)
    requires Savable(k, u, w) && s < |k.symbols| && w.vis(s) != 0
    requires !BoolTristate(k.Sym(s).origType) && k.Sym(s).origType != UNKNOWN
    ensures EffectVal(k, ConfigLine(k, s, w.str(s)))
            == if Acceptable(k, s, Text(w.str(s).val)) then Some(Text(w.str(s).val)) else None
  {
    TypedForm(k, u, w, s);
    WrittenEffect(k, u, w, s);
  }

  lemma OwnLinesOf(k: Kconfig, u: User, w: World, f: nat -> Option<Line>)
    requires Savable(k, u, w)
    requires forall s: nat :: f(s) == None || f(s) == ConfigLine(k, s, w.str(s))
    ensures OwnLines(k, f)
  {
    forall s: nat | s < |k.symbols| && Effect(k, f(s)).Some? ensures Effect(k, f(s)).value.s == s {
      WrittenEffect(k, u, w, s);
    }
  }

  /** In a solution the y symbols of a choice are exactly its selection. */
  lemma SelectionIsY(k: Kconfig, u: User, w: World, c: nat, s: nat)
    requires ChoicesOk(k) && GoodChoices(k) && ValidUser(k, u) && Solves(k, u, w) && k.Sym(s).choice == Some(c)
    ensures w.sel(c) == Some(s) <==> w.tri(s).val == 2
    ensures w.sel(c) == Some(s) ==> w.tri(s).write && ModeOf(k, u, c, w) == 2
  {
    MemberForm(k, u, w, c, s);
    assert Look(w, Sel(c)) == Step(k, u, Sel(c), w);
    SelectionIs(k, u, c, w);
  }

  /** The selection stays if the user selects it, or if it is the default and the user
      selects nothing. */
  lemma KeptSelection(k: Kconfig, u: User, u': User, w: World, c: nat)
    requires ChoicesOk(k) && ValidUser(k, u) && ValidUser(k, u') && Solves(k, u, w) && ModesAlike(k, u, u', w)
    requires w.sel(c).Some? ==>
      || Get(u'.sels, c) == w.sel(c)
      || (Get(u'.sels, c) == None && SelectionFromDefaults(k, u, c, w) == w.sel(c))
    ensures SelStep(k, u', c, w) == SelStep(k, u, c, w)
  {
    assert Look(w, Sel(c)) == Step(k, u, Sel(c), w);
    SelectionIs(k, u, c, w);
    SelectionIs(k, u', c, w);
    ModesAgree(k, u, u', w, Reads(k, Sel(c)));
    SelectionCongruent(k, u', u, c, w, w);
  }

  /** The selection that a file gives to a choice of which it sets at most one symbol to y. */
  lemma LoadedSelection(k: Kconfig, u: User, w: World, f: nat -> Option<Line>, c: nat)
    requires Savable(k, u, w)
    requires forall s: nat :: f(s) == None || f(s) == ConfigLine(k, s, w.str(s))
    ensures LastSel(k, Lines(f, |k.symbols|), c) ==
      if w.sel(c).Some? && f(w.sel(c).value) != None then w.sel(c) else None
  {
    OwnLinesOf(k, u, w, f);
    var n := |k.symbols|;
    var z := LastSel(k, Lines(f, n), c);
    WrittenLastSel(k, f, n, c);
    if z.Some? {
      WrittenLevel(k, u, w, z.value);
      SelectionIsY(k, u, w, c, z.value);
    } else if w.sel(c).Some? {
      var y := w.sel(c).value;
      assert Look(w, Sel(c)) == Step(k, u, Sel(c), w);
      SelectionIs(k, u, c, w);
      assert k.Sym(y).choice == Some(c) && y < n;
      MemberForm(k, u, w, c, y);
      WrittenLevel(k, u, w, y);
      SelectionIsY(k, u, w, c, y);
      if f(y) != None {
        WrittenEffect(k, u, w, y);
        WrittenSomeSel(k, f, n, c, y);
      }
    }
  }

  // ----- The modes of choices -----

  /** The mode that an optional line gives to choice `c`. */
  function ModeIn(k: Kconfig, l: Option<Line>, c: nat): Option<Tri> {
    var a := Effect(k, l);
    if a.Some? && ModeSet(k, a.value) == Some(c) && ModeAcceptable(k, c, a.value.v.t) then Some(a.value.v.t) else None
  }

  lemma LastModeOfExtension(k: Kconfig, lines: seq<Line>, l: Option<Line>, c: nat)
    ensures LastMode(k, lines + OptLine(l), c) == OrElse(ModeIn(k, l, c), LastMode(k, lines, c))
  {
    var more := lines + OptLine(l);
    if l.Some? { assert more[..|lines|] == lines; } else { assert more == lines; }
  }

  /** A writer gives every symbol its own line or none. */
  ghost predicate Writes(k: Kconfig, w: World, f: nat -> Option<Line>) {
    forall s: nat {:trigger f(s)} :: f(s) == None || f(s) == ConfigLine(k, s, w.str(s))
  }

  /** The file does not set any symbol of the choice to m or y. */
  ghost predicate Silent(k: Kconfig, w: World, f: nat -> Option<Line>, c: nat) {
    forall s :: s in k.Ch(c).syms ==> w.tri(s).val == 0 || f(s) == None
  }

  /** A written symbol of a choice gives the choice the mode that it has, unless it is n. */
  lemma MemberMode(k: Kconfig, u: User, w: World, f: nat -> Option<Line>, c: nat, s: nat)
    requires Savable(k, u, w) && Writes(k, w, f) && s < |k.symbols|
    ensures ModeIn(k, f(s), c) ==
      if k.Sym(s).choice == Some(c) && w.tri(s).val != 0 && f(s) != None then Some(ModeOf(k, u, c, w)) else None
  {
    if f(s) != None {
      WrittenEffect(k, u, w, s);
      if k.Sym(s).choice == Some(c) {
        MemberForm(k, u, w, c, s);
        WrittenLevel(k, u, w, s);
      }
    }
  }

  /** The mode that is loaded is set by some line, if any line sets it. */
  lemma LoadedModeIs(k: Kconfig, f: nat -> Option<Line>, n: nat, c: nat)
    ensures var m := LastMode(k, Lines(f, n), c);
      && (m.Some? ==> exists i: nat :: i < n && ModeIn(k, f(i), c) == m)
      && (forall i: nat :: i < n && ModeIn(k, f(i), c).Some? ==> m.Some?)
  {
    var last, entry := (i: nat) => LastMode(k, Lines(f, i), c), (i: nat) => ModeIn(k, f(i), c);
    forall i: nat | i < n ensures last(i + 1) == OrElse(entry(i), last(i)) {
      LastModeOfExtension(k, Lines(f, i), f(i), c);
    }
    SomeWins(last, entry, n);
    if last(n).Some? {
      var i: nat :| i < n && entry(i) == last(n);
      assert ModeIn(k, f(i), c) == last(n);
    }
    forall i: nat | i < n && ModeIn(k, f(i), c).Some? ensures last(n).Some? { assert entry(i).Some?; }
  }

  /** The mode that is loaded: the one there was, or none. */
  lemma LoadedMode(k: Kconfig, u: User, w: World, f: nat -> Option<Line>, c: nat)
    requires Savable(k, u, w) && Writes(k, w, f)
    ensures LastMode(k, Lines(f, |k.symbols|), c) == if Silent(k, w, f, c) then None else Some(ModeOf(k, u, c, w))
  {
    var n := |k.symbols|;
    LoadedModeIs(k, f, n, c);
    if !Silent(k, w, f, c) {
      var s :| s in k.Ch(c).syms && !(w.tri(s).val == 0 || f(s) == None);
      MemberIsWritten(k, u, w, f, c, s);
    }
    if LastMode(k, Lines(f, n), c).Some? {
      var i: nat :| i < n && ModeIn(k, f(i), c) == LastMode(k, Lines(f, n), c);
      MemberMode(k, u, w, f, c, i);
      MemberListed(k, c, i);
    }
  }

  lemma MemberListed(k: Kconfig, c: nat, s: nat)
    requires ChoicesOk(k) && k.Sym(s).choice == Some(c)
    ensures s in k.Ch(c).syms && s < |k.symbols|
  {
  }

  lemma MemberIsWritten(k: Kconfig, u: User, w: World, f: nat -> Option<Line>, c: nat, s: nat)
    requires Savable(k, u, w) && Writes(k, w, f) && s in k.Ch(c).syms && w.tri(s).val != 0 && f(s) != None
    ensures s < |k.symbols| && ModeIn(k, f(s), c) == Some(ModeOf(k, u, c, w))
  {
    assert k.Sym(s).choice == Some(c);
    MemberMode(k, u, w, f, c, s);
  }

  /** The file is silent about a choice whose mode is not the one it has without the user. */
  ghost predicate ModeLost(k: Kconfig, u: User, w: World, f: nat -> Option<Line>, c: nat) {
    Silent(k, w, f, c) && ModeOf(k, NoUser, c, w) != ModeOf(k, u, c, w)
  }

  lemma ModeKept(k: Kconfig, u: User, w: World, f: nat -> Option<Line>, u0: User, u': User, c: nat)
    requires Savable(k, u, w) && Writes(k, w, f) && Replaced(k, Lines(f, |k.symbols|), u0, u')
    ensures ModeOf(k, u', c, w) == ModeOf(k, u, c, w) <==> !ModeLost(k, u, w, f, c)
  {
    LoadedMode(k, u, w, f, c);
    assert Get(u'.modes, c) == LastMode(k, Lines(f, |k.symbols|), c);
    if !Silent(k, w, f, c) {
      var s :| s in k.Ch(c).syms && w.tri(s).val != 0 && f(s) != None;
      MemberForm(k, u, w, c, s);
    }
  }

  /** A symbol of a choice keeps its value. */
  lemma KeptMember(k: Kconfig, u: User, w: World, f: nat -> Option<Line>, u': User, s: nat)
    requires Savable(k, u, w) && Writes(k, w, f) && OwnLines(k, f) && k.Sym(s).choice.Some? && s < |k.symbols|
    requires Get(u'.vals, s) == EffectVal(k, f(s)) && (w.tri(s).val == 1 ==> f(s) != None)
    ensures ChoiceTriStep(u', s, k.Sym(s).choice.value, w) == ChoiceTriStep(u, s, k.Sym(s).choice.value, w)
  {
    MemberForm(k, u, w, k.Sym(s).choice.value, s);
    WrittenLevel(k, u, w, s);
  }

  /** A selection is loaded as it was, or it is the default and nothing is loaded. */
  lemma SelsKept(k: Kconfig, u: User, w: World, f: nat -> Option<Line>, u0: User, u': User, c: nat)
    requires Savable(k, u, w) && Writes(k, w, f) && ValidUser(k, u') && ModesAlike(k, u, u', w)
    requires Replaced(k, Lines(f, |k.symbols|), u0, u')
    requires w.sel(c).Some? ==> f(w.sel(c).value) != None || SelectionFromDefaults(k, u, c, w) == w.sel(c)
    ensures SelStep(k, u', c, w) == SelStep(k, u, c, w)
  {
    var lines := Lines(f, |k.symbols|);
    assert Get(u'.sels, c) == if OnlyM(k, lines, c) then Get(u0.sels, c) else LastSel(k, lines, c);
    if w.sel(c).Some? { LoadedSelOrDefault(k, u, w, f, c); }
    KeptSelection(k, u, u', w, c);
  }

  lemma LoadedSelOrDefault(k: Kconfig, u: User, w: World, f: nat -> Option<Line>, c: nat)
    requires Savable(k, u, w) && Writes(k, w, f) && w.sel(c).Some?
    ensures var lines := Lines(f, |k.symbols|);
      !OnlyM(k, lines, c) && LastSel(k, lines, c) == if f(w.sel(c).value) != None then w.sel(c) else None
  {
    LoadedSelection(k, u, w, f, c);
    LoadedMode(k, u, w, f, c);
    if f(w.sel(c).value) == None { OnlySelection(k, u, w, f, c); }
  }

  /** If the selected symbol is not written, no symbol of its choice is set to m or y. */
  lemma OnlySelection(k: Kconfig, u: User, w: World, f: nat -> Option<Line>, c: nat)
    requires Savable(k, u, w) && w.sel(c).Some? && f(w.sel(c).value) == None
    ensures Silent(k, w, f, c)
  {
    assert Look(w, Sel(c)) == Step(k, u, Sel(c), w);
    forall s | s in k.Ch(c).syms ensures w.tri(s).val == 0 || f(s) == None {
      MemberForm(k, u, w, c, s);
      SelectionIsY(k, u, w, c, s);
    }
  }

  // ----- Full configurations -----

  /** Full-config round trip: after loading the written file over any prior state, the
      values and the modes are the written ones if and only if no symbol is lossy and no
      mode is lost. */
  lemma FullConfigSolves(k: Kconfig, u: User, w: World, u0: User, u': User)
    requires Savable(k, u, w) && ValidUser(k, u') && Replaced(k, FullConfig(k, w), u0, u')
    ensures Solves(k, u', w) && ModesAlike(k, u, u', w) <==>
      (forall s: nat :: !Lossy(k, u, w, s)) && (forall c: nat :: !ModeLost(k, u, w, FullLine(k, w), c))
  {
    var f, n := FullLine(k, w), |k.symbols|;
    forall c: nat ensures ModeOf(k, u', c, w) == ModeOf(k, u, c, w) <==> !ModeLost(k, u, w, f, c) {
      ModeKept(k, u, w, f, u0, u', c);
    }
    if ModesAlike(k, u, u', w) { FullConfigSolvesAlike(k, u, w, u0, u'); }
  }

  lemma FullTri(k: Kconfig, u: User, w: World, u0: User, u': User, s: nat)
    requires Savable(k, u, w) && Replaced(k, FullConfig(k, w), u0, u') && ModesAlike(k, u, u', w)
    requires BoolTristate(k.Sym(s).origType)
    ensures k.Sym(s).choice.None? ==> (PlainTriStep(k, u', s, w) == PlainTriStep(k, u, s, w) <==> !Lossy(k, u, w, s))
    ensures k.Sym(s).choice.Some? ==>
      ChoiceTriStep(u', s, k.Sym(s).choice.value, w) == ChoiceTriStep(u, s, k.Sym(s).choice.value, w)
  {
    var f, n := FullLine(k, w), |k.symbols|;
    OwnLinesOf(k, u, w, f);
    WrittenLastVal(k, f, n, s);
    WrittenLevel(k, u, w, s);
    ValueForm(k, u, w, s);
    assert Get(u'.vals, s) == LastVal(k, Lines(f, n), s);
    if k.Sym(s).choice.None? {
      KeptTri(k, u, u', w, s);
    } else {
      MemberForm(k, u, w, k.Sym(s).choice.value, s);
      KeptMember(k, u, w, f, u', s);
    }
  }

  lemma FullConfigSolvesAlike(k: Kconfig, u: User, w: World, u0: User, u': User)
    requires Savable(k, u, w) && ValidUser(k, u') && Replaced(k, FullConfig(k, w), u0, u') && ModesAlike(k, u, u', w)
    ensures Solves(k, u', w) <==> forall s: nat :: !Lossy(k, u, w, s)
  {
    var f, n := FullLine(k, w), |k.symbols|;
    forall s: nat | BoolTristate(k.Sym(s).origType)
      ensures k.Sym(s).choice.None? ==> (PlainTriStep(k, u', s, w) == PlainTriStep(k, u, s, w) <==> !Lossy(k, u, w, s))
      ensures k.Sym(s).choice.Some? ==>
        ChoiceTriStep(u', s, k.Sym(s).choice.value, w) == ChoiceTriStep(u, s, k.Sym(s).choice.value, w)
    {
      FullTri(k, u, w, u0, u', s);
    }
    forall s: nat | k.Sym(s).choice.Some? ensures BoolTristate(k.Sym(s).origType) {
      MemberForm(k, u, w, k.Sym(s).choice.value, s);
    }
    forall s: nat | !BoolTristate(k.Sym(s).origType) && k.Sym(s).origType != UNKNOWN
      ensures TypedStrStep(k, u', s, w) == TypedStrStep(k, u, s, w)
    {
      OwnLinesOf(k, u, w, f);
      WrittenLastVal(k, f, n, s);
      if w.vis(s) != 0 { WrittenText(k, u, w, s); }
      assert Get(u'.vals, s) == LastVal(k, Lines(f, n), s);
      KeptText(k, u, u', w, s);
    }
    forall c: nat ensures SelStep(k, u', c, w) == SelStep(k, u, c, w) {
      FullSelection(k, u, w, c);
      SelsKept(k, u, w, f, u0, u', c);
    }
    if forall s: nat :: !Lossy(k, u, w, s) {
      SolvesFromOwn(k, u, u', w);
    } else {
      var s: nat :| Lossy(k, u, w, s);
      SolvesSymbol(k, u, w, s);
      if Solves(k, u', w) { SolvesSymbol(k, u', w, s); }
    }
  }

  lemma FullSelection(k: Kconfig, u: User, w: World, c: nat)
    requires Savable(k, u, w)
    ensures w.sel(c).Some? ==> FullLine(k, w)(w.sel(c).value) != None
  {
    if w.sel(c).Some? {
      var y := w.sel(c).value;
      assert Look(w, Sel(c)) == Step(k, u, Sel(c), w);
      SelectionIs(k, u, c, w);
      SelectionIsY(k, u, w, c, y);
      MemberForm(k, u, w, c, y);
      ValueForm(k, u, w, y);
    }
  }

  // ----- Minimal configurations -----

  /** The further assumptions for minimal files: selects only on bool and tristate symbols,
      and prompts that need the direct dependencies (which propagation gives). */
  ghost predicate Minimizable(k: Kconfig) {
    && (forall s: nat :: !BoolTristate(k.Sym(s).origType) ==> k.Sym(s).revDep == N)
    && (forall s: nat, p :: p in k.Sym(s).prompts ==> Entails(k, p, k.Sym(s).directDep))
  }

  /** Whenever `p` is not n, `d` is not n. */
  ghost predicate Entails(k: Kconfig, p: Expr, d: Expr) {
    forall u: User, w: World {:trigger ExprVal(k, u, p, w)} :: ExprVal(k, u, p, w) != 0 ==> ExprVal(k, u, d, w) != 0
  }

  lemma {:induction false} SomePromptOn(k: Kconfig, u: User, es: seq<Expr>, w: World)
    requires MaxVal(k, u, es, w) != 0
    ensures exists p :: p in es && ExprVal(k, u, p, w) != 0
  {
    if ExprVal(k, u, es[|es| - 1], w) == 0 {
      SomePromptOn(k, u, es[..|es| - 1], w);
    } else {
      assert es[|es| - 1] in es;
    }
  }

  lemma VisibleHasDirect(k: Kconfig, u: User, w: World, s: nat)
    requires Minimizable(k) && Solves(k, u, w) && w.vis(s) != 0
    ensures ExprVal(k, u, k.Sym(s).directDep, w) != 0
  {
    SolvesSymbol(k, u, w, s);
    SomePromptOn(k, u, k.Sym(s).prompts, w);
    var p :| p in k.Sym(s).prompts && ExprVal(k, u, p, w) != 0;
    assert Entails(k, p, k.Sym(s).directDep);
  }

  /** The minimal file leaves the symbol out because its visibility m and a select to m pin
      it to m, as it seems; but it was the user's m that held it down from its default y. */
  predicate MinLossy(k: Kconfig, u: User, w: World, s: nat) {
    && BoolTristate(k.Sym(s).origType) && k.Sym(s).choice.None?
    && w.vis(s) == 1 && w.tri(s).val == 1 && ExprVal(k, u, k.Sym(s).revDep, w) == 1
    && ExprVal(k, u, k.Sym(s).weakRevDep, w) != 2 && DefaultTri(k, u, s, w) == 2
  }

  /** A symbol that the minimal file leaves out gets the same value without a user value,
      with the one exception. */
  lemma SkippedTri(k: Kconfig, u: User, u': User, w: World, s: nat)
    requires ChoicesOk(k) && Minimizable(k) && Solves(k, u, w) && ModesAlike(k, u, u', w)
    requires BoolTristate(k.Sym(s).origType) && k.Sym(s).choice.None? && w.vis(s) != 0
    requires UserLevel(u', s) == None && !MinKeeps(k, u, s, w)
    ensures PlainTriStep(k, u', s, w) == PlainTriStep(k, u, s, w) <==> !MinLossy(k, u, w, s)
  {
    SolvesSymbol(k, u, w, s);
    ValueForm(k, u, w, s);
    VisibleHasDirect(k, u, w, s);
    ModesAgree(k, u, u', w, PlainTriReads(k, s));
    FallbackCongruent(k, u', u, s, w);
    PromotesCongruent(k, u', u, s, w, w);
    if w.vis(s) > ExprVal(k, u, k.Sym(s).revDep, w) {
      assert w.str(s).val == StrDefault(k, u, s, w);
      TriStrInjective();
    }
  }

  /** What is written has no exception: a default y under visibility m is not written. */
  lemma WrittenIsNotLossy(k: Kconfig, u: User, w: World, s: nat)
    requires Minimizable(k) && Solves(k, u, w) && MinKeeps(k, u, s, w)
    ensures !Lossy(k, u, w, s) && !MinLossy(k, u, w, s)
  {
    SolvesSymbol(k, u, w, s);
    if BoolTristate(k.Sym(s).origType) && w.vis(s) == 1 {
      ValueForm(k, u, w, s);
      VisibleHasDirect(k, u, w, s);
    }
  }

  lemma TriStrInjective()
    ensures forall a: Tri, b: Tri :: TriStr(a) == TriStr(b) ==> a == b
  {
  }

  lemma FallbackCongruent(k: Kconfig, u: User, u': User, s: nat, w: World)
    requires BoolTristate(k.Sym(s).origType) && SameModes(k, u, u', w, w, PlainTriReads(k, s))
    ensures FallbackTri(k, u, s, w) == FallbackTri(k, u', s, w)
  {
    DefaultTriCongruent(k, u, u', s, w, w);
    ExprCongruent(k, u, u', k.Sym(s).weakRevDep, w, w);
    ExprCongruent(k, u, u', k.Sym(s).directDep, w, w);
  }

  /** The same for the other types. */
  lemma SkippedText(k: Kconfig, u: User, u': User, w: World, s: nat)
    requires ChoicesOk(k) && GoodChoices(k) && ValidUser(k, u) && Solves(k, u, w) && Minimizable(k)
    requires ModesAlike(k, u, u', w)
    requires !BoolTristate(k.Sym(s).origType) && k.Sym(s).origType != UNKNOWN
    requires k.Sym(s).choice.None? && w.vis(s) != 0 && UserText(u', s) == None && !MinKeeps(k, u, s, w)
    ensures TypedStrStep(k, u', s, w) == TypedStrStep(k, u, s, w)
  {
    assert Look(w, StrOf(s)) == Step(k, u, StrOf(s), w);
    ModesAgree(k, u, u', w, DefaultReads(k, s));
    ModesAgree(k, u, u', w, RangeReads(k, s));
    VisibleHasPrompt(k, u, w, s);
    DefaultStrCongruent(k, u', u, s, w, w);
    RangeCongruent(k, u', u, s, w, w);
    assert w.str(s).val == StrDefault(k, u, s, w);
  }

  /** `u'` has the user values of the minimal file. */
  ghost predicate MinVals(k: Kconfig, u: User, u': User, w: World) {
    forall s: nat {:trigger Get(u'.vals, s)} :: s < |k.symbols| ==> Get(u'.vals, s) == EffectVal(k, MinLine(k, u, w)(s))
  }

  lemma MinTri(k: Kconfig, u: User, w: World, u': User, s: nat)
    requires Savable(k, u, w) && Minimizable(k) && ModesAlike(k, u, u', w) && MinVals(k, u, u', w)
    requires BoolTristate(k.Sym(s).origType) && k.Sym(s).choice.None?
    ensures PlainTriStep(k, u', s, w) == PlainTriStep(k, u, s, w) <==> !MinLossy(k, u, w, s)
  {
    assert s < |k.symbols| ==> Get(u'.vals, s) == EffectVal(k, MinLine(k, u, w)(s));
    ValueForm(k, u, w, s);
    if w.vis(s) == 0 {
      KeptTri(k, u, u', w, s);
    } else if MinKeeps(k, u, s, w) {
      WrittenLevel(k, u, w, s);
      KeptTri(k, u, u', w, s);
      WrittenIsNotLossy(k, u, w, s);
    } else {
      SkippedTri(k, u, u', w, s);
    }
  }

  lemma MinText(k: Kconfig, u: User, w: World, u': User, s: nat)
    requires Savable(k, u, w) && Minimizable(k) && ModesAlike(k, u, u', w) && MinVals(k, u, u', w)
    requires !BoolTristate(k.Sym(s).origType) && k.Sym(s).origType != UNKNOWN
    ensures TypedStrStep(k, u', s, w) == TypedStrStep(k, u, s, w)
  {
    MembersAreBool(k);
    assert s < |k.symbols| ==> Get(u'.vals, s) == EffectVal(k, MinLine(k, u, w)(s));
    if w.vis(s) == 0 || MinKeeps(k, u, s, w) {
      if w.vis(s) != 0 { WrittenText(k, u, w, s); }
      KeptText(k, u, u', w, s);
    } else {
      SkippedText(k, u, u', w, s);
    }
  }

  lemma MinMember(k: Kconfig, u: User, w: World, u': User, s: nat)
    requires Savable(k, u, w) && MinVals(k, u, u', w) && k.Sym(s).choice.Some?
    ensures ChoiceTriStep(u', s, k.Sym(s).choice.value, w) == ChoiceTriStep(u, s, k.Sym(s).choice.value, w)
  {
    assert s < |k.symbols| && Get(u'.vals, s) == EffectVal(k, MinLine(k, u, w)(s));
    OwnLinesOf(k, u, w, MinLine(k, u, w));
    MemberForm(k, u, w, k.Sym(s).choice.value, s);
    ValueForm(k, u, w, s);
    KeptMember(k, u, w, MinLine(k, u, w), u', s);
  }

  /** Minimal-config equivalence: loading the minimal file over any prior state gives every
      symbol the value it had when the file was written, and every choice its mode, if and
      only if there is no symbol of that one kind and no mode is lost. */
  lemma MinConfigSolves(k: Kconfig, u: User, w: World, u0: User, u': User)
    requires Savable(k, u, w) && Minimizable(k) && ValidUser(k, u') && Replaced(k, MinConfig(k, u, w), u0, u')
    ensures Solves(k, u', w) && ModesAlike(k, u, u', w) <==>
      (forall s: nat :: !MinLossy(k, u, w, s)) && (forall c: nat :: !ModeLost(k, u, w, MinLine(k, u, w), c))
  {
    var f, n := MinLine(k, u, w), |k.symbols|;
    OwnLinesOf(k, u, w, f);
    forall c: nat ensures ModeOf(k, u', c, w) == ModeOf(k, u, c, w) <==> !ModeLost(k, u, w, f, c) {
      ModeKept(k, u, w, f, u0, u', c);
    }
    forall s: nat | s < n ensures Get(u'.vals, s) == EffectVal(k, f(s)) {
      WrittenLastVal(k, f, n, s);
      assert Get(u'.vals, s) == LastVal(k, Lines(f, n), s);
    }
    if ModesAlike(k, u, u', w) { MinConfigSolvesAlike(k, u, w, u0, u'); }
  }

  lemma MinConfigSolvesAlike(k: Kconfig, u: User, w: World, u0: User, u': User)
    requires Savable(k, u, w) && Minimizable(k) && ValidUser(k, u') && Replaced(k, MinConfig(k, u, w), u0, u')
    requires ModesAlike(k, u, u', w) && MinVals(k, u, u', w)
    ensures Solves(k, u', w) <==> forall s: nat :: !MinLossy(k, u, w, s)
  {
    forall s: nat | BoolTristate(k.Sym(s).origType) && k.Sym(s).choice.None?
      ensures PlainTriStep(k, u', s, w) == PlainTriStep(k, u, s, w) <==> !MinLossy(k, u, w, s)
    {
      MinTri(k, u, w, u', s);
    }
    forall s: nat | !BoolTristate(k.Sym(s).origType) && k.Sym(s).origType != UNKNOWN
      ensures TypedStrStep(k, u', s, w) == TypedStrStep(k, u, s, w)
    {
      MinText(k, u, w, u', s);
    }
    forall s: nat | k.Sym(s).choice.Some?
      ensures ChoiceTriStep(u', s, k.Sym(s).choice.value, w) == ChoiceTriStep(u, s, k.Sym(s).choice.value, w)
    {
      MinMember(k, u, w, u', s);
    }
    forall c: nat ensures SelStep(k, u', c, w) == SelStep(k, u, c, w) {
      MinSelection(k, u, w, c);
      SelsKept(k, u, w, MinLine(k, u, w), u0, u', c);
    }
    if forall s: nat :: !MinLossy(k, u, w, s) {
      SolvesFromOwn(k, u, u', w);
    } else {
      var s: nat :| MinLossy(k, u, w, s);
      SolvesSymbol(k, u, w, s);
      if Solves(k, u', w) { SolvesSymbol(k, u', w, s); }
    }
  }

  /** The minimal file selects a symbol, or leaves out the one that is selected by default. */
  lemma MinSelection(k: Kconfig, u: User, w: World, c: nat)
    requires Savable(k, u, w)
    ensures w.sel(c).Some? ==>
      MinLine(k, u, w)(w.sel(c).value) != None || SelectionFromDefaults(k, u, c, w) == w.sel(c)
  {
    if w.sel(c).Some? {
      var y := w.sel(c).value;
      assert Look(w, Sel(c)) == Step(k, u, Sel(c), w);
      SelectionIs(k, u, c, w);
      SelectionIsY(k, u, w, c, y);
      MemberForm(k, u, w, c, y);
      ValueForm(k, u, w, y);
    }
  }

  // ----- The theorems in terms of evaluation -----

  ghost predicate SameValues(w: World, w': World) { forall q :: Readable(q) ==> Look(w, q) == Look(w', q) }

  lemma SolutionIsEval(k: Kconfig, rk: Rank, u: User, w: World)
    requires ChoicesOk(k) && WellRanked(k, rk) && ValidUser(k, u) && Solves(k, u, w)
    ensures SameValues(Eval(k, u), w)
  {
    EvalSolves(k, rk, u);
    forall q | Readable(q) ensures Look(Eval(k, u), q) == Look(w, q) {
      SolutionUnique(k, rk, u, Eval(k, u), w, q);
    }
  }

  /** The same values and the same modes. */
  ghost predicate SameState(k: Kconfig, u: User, u': User) {
    SameValues(Eval(k, u'), Eval(k, u)) && forall c: nat :: ModeOf(k, u', c, Eval(k, u')) == ModeOf(k, u, c, Eval(k, u))
  }

  /** Evaluation after loading, in terms of the old values. */
  lemma SameStateIs(k: Kconfig, rk: Rank, u: User, u': User)
    requires WellRanked(k, rk) && ValidUser(k, u) && ValidUser(k, u') && ChoicesOk(k)
    ensures SameState(k, u, u') <==> Solves(k, u', Eval(k, u)) && ModesAlike(k, u, u', Eval(k, u))
  {
    var w, w' := Eval(k, u), Eval(k, u');
    EvalSolves(k, rk, u');
    if Solves(k, u', w) {
      SolutionIsEval(k, rk, u', w);
    } else if SameValues(w', w) {
      SolvesCarriesOver(k, u', w', w);
    }
    if SameValues(w', w) {
      forall c: nat ensures ModeOf(k, u', c, w') == ModeOf(k, u', c, w) {
        forall q | q in ModeReads(k, c) ensures Look(w', q) == Look(w, q) {}
        ModeCongruent(k, u', u', c, w', w);
      }
    }
  }

  lemma FullConfigRoundTrip(k: Kconfig, rk: Rank, u: User, u0: User, u': User)
    requires WellRanked(k, rk) && ValidUser(k, u) && ChoicesOk(k)
    requires Savable(k, u, Eval(k, u)) && ValidUser(k, u')
    requires Replaced(k, FullConfig(k, Eval(k, u)), u0, u')
    ensures var w := Eval(k, u); SameState(k, u, u') <==>
      (forall s: nat :: !Lossy(k, u, w, s)) && (forall c: nat :: !ModeLost(k, u, w, FullLine(k, w), c))
  {
    FullConfigSolves(k, u, Eval(k, u), u0, u');
    SameStateIs(k, rk, u, u');
  }

  /** A configuration with a lossy symbol: a tristate with a prompt `if m` and default y. */
  lemma LossyExists(u0: User, u': User)
    requires ValidUser(Exception, u') && Replaced(Exception, FullConfig(Exception, Eval(Exception, NoUser)), u0, u')
    ensures Lossy(Exception, NoUser, Eval(Exception, NoUser), 4)
    ensures !SameState(Exception, NoUser, u')
  {
    var k, u := Exception, NoUser;
    var w := Eval(k, u);
    ExceptionOk();
    EvalSolves(k, ExceptionRank, u);
    ExceptionWorld(u, w);
    SolvesSymbol(k, u, w, 4);
    assert Conds(k.Sym(4).defaults) == [Y] && FirstOn(k, u, [Y], w) == 0;
    assert BaseTri(k, u, 4, w).val == 2;
    ExceptionSavable(u, w);
    assert Lossy(k, u, w, 4);
    FullConfigRoundTrip(k, ExceptionRank, u, u0, u');
  }

  lemma ExceptionSavable(u: User, w: World)
    requires Solves(Exception, u, w) && ValidUser(Exception, u)
    ensures Savable(Exception, u, w)
  {
    ExceptionOk();
    forall s: nat | s < |Exception.symbols| ensures Lookup(Exception, Exception.Sym(s).name) == Some(s) {
      ExceptionNames();
      FirstOfName(Exception, s, 0);
    }
  }

  lemma ExceptionNames()
    ensures forall i, j :: 0 <= i < j < |Exception.symbols| ==> Exception.symbols[i].name != Exception.symbols[j].name
  {
    assert "MODULES"[0] == 'M' && "SEL"[0] == 'S' && "IMP"[0] == 'I' && "X"[0] == 'X';
    assert "D"[0] == 'D' && "E"[0] == 'E';
    forall i, j | 0 <= i < j < |Exception.symbols| ensures Exception.symbols[i].name != Exception.symbols[j].name {
      assert Exception.symbols[i].name[0] != Exception.symbols[j].name[0];
    }
  }

  lemma {:induction false} FirstOfName(k: Kconfig, s: nat, i: nat)
    requires i <= s < |k.symbols| && forall j :: i <= j < s ==> k.symbols[j].name != k.symbols[s].name
    ensures LookupFrom(k, k.symbols[s].name, i) == Some(s)
    decreases s - i
  {
    if i < s { FirstOfName(k, s, i + 1); }
  }

  lemma SolvesCarriesOver(k: Kconfig, u: User, w: World, w': World)
    requires ChoicesOk(k) && ValidUser(k, u) && Solves(k, u, w) && SameValues(w, w')
    ensures Solves(k, u, w')
  {
    forall q | Readable(q) ensures Look(w', q) == Step(k, u, q, w') {
      assert Look(w, q) == Step(k, u, q, w);
      ReadsReadable(k, q);
      StepCongruent(k, u, u, q, w, w');
    }
  }

  lemma {:induction false} ExprReadsReadable(k: Kconfig, e: Expr)
    ensures forall r :: r in ExprReads(k, e) ==> Readable(r)
  {
    match e
    case And(l, r) => ExprReadsReadable(k, l); ExprReadsReadable(k, r);
    case Or(l, r) => ExprReadsReadable(k, l); ExprReadsReadable(k, r);
    case Not(x) => ExprReadsReadable(k, x);
    case _ =>
  }

  lemma ReadsReadable(k: Kconfig, q: Query)
    ensures forall r :: r in Reads(k, q) ==> Readable(r)
  {
    forall e ensures forall r :: r in ExprReads(k, e) ==> Readable(r) { ExprReadsReadable(k, e); }
  }

  lemma MinConfigRoundTrip(k: Kconfig, rk: Rank, u: User, u0: User, u': User)
    requires WellRanked(k, rk) && ValidUser(k, u) && ChoicesOk(k)
    requires Savable(k, u, Eval(k, u)) && Minimizable(k) && ValidUser(k, u')
    requires Replaced(k, MinConfig(k, u, Eval(k, u)), u0, u')
    ensures var w := Eval(k, u); SameState(k, u, u') <==>
      (forall s: nat :: !MinLossy(k, u, w, s)) && (forall c: nat :: !ModeLost(k, u, w, MinLine(k, u, w), c))
  {
    MinConfigSolves(k, u, Eval(k, u), u0, u');
    SameStateIs(k, rk, u, u');
  }

  /** Nothing is lost where the original promises so: without tristate symbols, and with
      bool choices that are not optional. */
  lemma NothingLost(k: Kconfig, u: User, w: World)
    requires Solves(k, u, w) && ValidUser(k, u)
    ensures (forall s: nat :: k.Sym(s).origType != TRISTATE) ==>
      forall s: nat :: !Lossy(k, u, w, s) && !MinLossy(k, u, w, s)
    ensures (forall c: nat :: c < |k.choices| ==> k.choices[c].origType == BOOL && !k.choices[c].isOptional) ==>
      forall f: nat -> Option<Line>, c: nat :: !ModeLost(k, u, w, f, c)
  {
    forall s: nat | k.Sym(s).origType != TRISTATE ensures !Lossy(k, u, w, s) && !MinLossy(k, u, w, s) {
      SolvesSymbol(k, u, w, s);
    }
    forall c: nat ensures w.cvis(c) == CVisStep(k, u, c, w) { assert Look(w, CVis(c)) == Step(k, u, CVis(c), w); }
  }

  /** A configuration with a symbol of that kind: a tristate with a prompt `if m` and default
      y that is selected to m and that the user set to m. */
  lemma MinLossyExists(u0: User, u': User)
    requires ValidUser(Exception, u')
    requires Replaced(Exception, MinConfig(Exception, SetsE, Eval(Exception, SetsE)), u0, u')
    ensures MinLossy(Exception, SetsE, Eval(Exception, SetsE), 5)
    ensures !SameState(Exception, SetsE, u')
  {
    var k, u := Exception, SetsE;
    var w := Eval(k, u);
    ExceptionOk();
    EvalSolves(k, ExceptionRank, u);
    ExceptionWorld(u, w);
    SolvesSymbol(k, u, w, 0);
    SolvesSymbol(k, u, w, 5);
    assert Conds(k.Sym(5).defaults) == [Y] && FirstOn(k, u, [Y], w) == 0;
    DefaultingValue(u, w, 0);
    assert BaseTri(k, u, 5, w).val == 1;
    assert MinLossy(k, u, w, 5);
    ExceptionSavable(u, w);
    ExceptionMinimizable();
    MinConfigRoundTrip(k, ExceptionRank, u, u0, u');
  }

  lemma ExceptionMinimizable()
    ensures Minimizable(Exception)
  {
    forall s: nat, p | p in Exception.Sym(s).prompts ensures Entails(Exception, p, Exception.Sym(s).directDep) {
      assert Exception.Sym(s).directDep == Y;
    }
  }
}

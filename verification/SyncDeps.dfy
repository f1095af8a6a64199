/** Kconfig.sync_deps(): which symbols' files are touched between two builds. */
module SyncDeps {
  import opened Model
  import opened Evaluation
  import opened Engine
  import opened Strings
  import opened ConfigFile
  import opened RoundTrip

  // ----- auto.conf and autoconf.h -----

  /** The line of a symbol in auto.conf: n values are left out. */
  function AutoLine(k: Kconfig, s: nat, v: StrVal): Option<Line> {
    if BoolTristate(k.Sym(s).origType) && v.val == "n" then None else ConfigLine(k, s, v)
  }

  function AutoLines(k: Kconfig, w: World): nat -> Option<Line> { (s: nat) => AutoLine(k, s, w.str(s)) }

  /** Kconfig._old_vals_contents() */
  function AutoConf(k: Kconfig, w: World): seq<Line> { Lines(AutoLines(k, w), |k.symbols|) }

  /** What follows "#define CONFIG_<name>" for the symbol in autoconf.h, None for no line. */
  function HeaderText(t: Type, v: StrVal): Option<string> {
    if !v.write then None
    else if BoolTristate(t) then
      if v.val == "y" then Some(" 1") else if v.val == "m" then Some("_MODULE 1") else None
    else if t == STRING then Some(" " + Quoted(v.val))
    else if t == KEY then Some(" " + Escape(v.val))
    else if t == HEX then Some(" " + HexText(v.val))
    else Some(" " + v.val)
  }

  function HexText(text: string): string { if "0x" <= text || "0X" <= text then text else "0x" + text }

  // ----- Loading the old values -----

  /** The old value that the right-hand side of a line gives, if it is well formed. */
  function OldText(t: Type, rhs: string): Option<string> {
    if t == STRING then match ConfString(rhs) case Some(b) => Some(Unescape(b)) case None => None
    else Some(rhs)
  }

  /** The last well-formed line for `s` decides. */
  function OldVal(k: Kconfig, lines: seq<Line>, s: nat): Option<string> {
    if lines == [] then None
    else
      var l := lines[|lines| - 1];
      if l.Assign? && Lookup(k, l.name) == Some(s) && OldText(k.Sym(s).origType, l.rhs).Some?
      then OldText(k.Sym(s).origType, l.rhs)
      else OldVal(k, lines[..|lines| - 1], s)
  }

  /** Names in auto.conf that no symbol has any more. */
  function Vanished(k: Kconfig, referenced: set<string>, lines: seq<Line>): seq<string> {
    if lines == [] then []
    else
      var l := lines[|lines| - 1];
      Vanished(k, referenced, lines[..|lines| - 1])
      + if l.Assign? && Lookup(k, l.name).None? && l.name !in referenced then [l.name] else []
  }

  /** A line for a symbol of type key: the source asks for a group that the pattern of that
      type does not have, and raises an exception. */
  predicate KeyLine(k: Kconfig, l: Line) {
    l.Assign? && Lookup(k, l.name).Some? && k.Sym(Lookup(k, l.name).value).origType == KEY
  }

  predicate NoKeyLines(k: Kconfig, lines: seq<Line>) { forall i :: 0 <= i < |lines| ==> !KeyLine(k, lines[i]) }

  /** The name is assigned in some line, no symbol has it, and no expression mentions it. */
  ghost predicate Gone(k: Kconfig, referenced: set<string>, lines: seq<Line>, x: string) {
    && x !in referenced && (forall s: nat :: s < |k.symbols| ==> k.symbols[s].name != x)
    && exists i :: 0 <= i < |lines| && lines[i].Assign? && lines[i].name == x
  }

  lemma {:induction false} NoSuchName(k: Kconfig, x: string, i: nat)
    ensures LookupFrom(k, x, i).None? <==> forall s: nat :: i <= s < |k.symbols| ==> k.symbols[s].name != x
    decreases |k.symbols| - i
  {
    if i < |k.symbols| && k.symbols[i].name != x { NoSuchName(k, x, i + 1); }
  }

  /** The names that vanished are those that are gone. */
  lemma {:induction false} VanishedIsGone(k: Kconfig, referenced: set<string>, lines: seq<Line>, x: string)
    ensures x in Vanished(k, referenced, lines) <==> Gone(k, referenced, lines, x)
  {
    if lines != [] {
      var n := |lines| - 1;
      VanishedIsGone(k, referenced, lines[..n], x);
      NoSuchName(k, x, 0);
      assert forall i :: 0 <= i < n ==> lines[..n][i] == lines[i];
      var here := lines[n].Assign? && lines[n].name == x && Lookup(k, x).None? && x !in referenced;
      assert Gone(k, referenced, lines, x) <==> here || Gone(k, referenced, lines[..n], x);
    }
  }

  /** Only the lines before the first key line had an effect: the names that are gone in them
      were touched, and nothing else. */
  ghost predicate RaisedAtKey(k: Kconfig, referenced: set<string>, lines: seq<Line>, touched: seq<string>) {
    exists n: nat :: n < |lines| && KeyLine(k, lines[n]) && NoKeyLines(k, lines[..n])
      && touched == Vanished(k, referenced, lines[..n])
      && forall x :: x in touched <==> Gone(k, referenced, lines[..n], x)
  }

  /** Kconfig._load_old_vals(): fills the `_old_val` fields and touches vanished symbols;
      not `ok` if an exception is raised.  `referenced` holds the names of undefined symbols
      that expressions mention. */
  method LoadOldVals(k: Kconfig, referenced: set<string>, lines: seq<Line>)
    returns (ok: bool, oldVals: map<nat, string>, touched: seq<string>)
    ensures ok <==> NoKeyLines(k, lines)
    ensures ok ==> forall s: nat :: Get(oldVals, s) == OldVal(k, lines, s)
    ensures ok ==> touched == Vanished(k, referenced, lines)
    ensures ok ==> forall x :: x in touched <==> Gone(k, referenced, lines, x)
    ensures !ok ==> RaisedAtKey(k, referenced, lines, touched)
  {
    oldVals, touched := map[], [];
    for i := 0 to |lines|
      invariant forall s: nat :: Get(oldVals, s) == OldVal(k, lines[..i], s)
      invariant touched == Vanished(k, referenced, lines[..i])
      invariant NoKeyLines(k, lines[..i])
    {
      assert lines[..i + 1][..i] == lines[..i];
      if lines[i].Assign? {
        var sym := Lookup(k, lines[i].name);
        if sym.Some? {
          if k.Sym(sym.value).origType == KEY {
            assert KeyLine(k, lines[i]);
            forall x { VanishedIsGone(k, referenced, lines[..i], x); }
            return false, oldVals, touched;
          }
          var text := OldText(k.Sym(sym.value).origType, lines[i].rhs);
          if text.Some? {
            oldVals := oldVals[sym.value := text.value];
          }
        } else if lines[i].name !in referenced {
          touched := touched + [lines[i].name];
        }
      }
    }
    assert lines[..|lines|] == lines;
    forall x { VanishedIsGone(k, referenced, lines, x); }
    ok := true;
  }

  // ----- Comparing -----

  /** The test in sync_deps(): the file of the symbol is touched. */
  predicate Touches(t: Type, v: StrVal, was: Option<string>) {
    if v.write then
      !(was.None? && BoolTristate(t) && v.val == "n") && was != Some(v.val)
    else was.Some?
  }

  function TouchedNames(k: Kconfig, w: World, lines: seq<Line>, n: nat): seq<string> {
    if n == 0 then []
    else TouchedNames(k, w, lines, n - 1)
         + if Touches(k.Sym(n - 1).origType, w.str(n - 1), OldVal(k, lines, n - 1)) then [k.Sym(n - 1).name] else []
  }

  /** `lines` is the auto.conf of the last run, [] on the first one; it is left as it is if
      an exception is raised. */
  method Sync(kc: Kconf, referenced: set<string>, lines: seq<Line>)
    returns (ok: bool, touched: seq<string>, auto: seq<Line>)
    requires kc.Valid()
    modifies kc`cache
    ensures kc.Valid()
    ensures ok <==> NoKeyLines(kc.k, lines)
    ensures ok ==> touched == Vanished(kc.k, referenced, lines) + TouchedNames(kc.k, kc.Now(), lines, |kc.k.symbols|)
    ensures ok ==> TouchedExactly(kc.k, referenced, lines, kc.Now(), touched)
    ensures ok ==> auto == AutoConf(kc.k, kc.Now())
    ensures !ok ==> auto == lines && RaisedAtKey(kc.k, referenced, lines, touched)
  {
    var oldVals;
    ok, oldVals, touched := LoadOldVals(kc.k, referenced, lines);
    if !ok {
      return false, touched, lines;
    }
    ghost var vanished, w := touched, kc.Now();
    var names: seq<string> := [];
    auto := [];
    for s := 0 to |kc.k.symbols|
      invariant kc.Valid() && kc.Now() == w
      invariant names == TouchedNames(kc.k, w, lines, s)
      invariant auto == Lines(AutoLines(kc.k, w), s)
    {
      var v := kc.StrValue(s);
      assert Get(oldVals, s) == OldVal(kc.k, lines, s);
      if Touches(kc.k.Sym(s).origType, v, Get(oldVals, s)) {
        names := names + [kc.k.Sym(s).name];
      }
      auto := auto + OptLine(AutoLine(kc.k, s, v));
    }
    TouchedIsNames(kc.k, w, lines, |kc.k.symbols|);
    touched := touched + names;
  }

  /** Which names are touched: those that are gone, and those of symbols whose value is not
      the one in the file. */
  ghost predicate TouchedExactly(k: Kconfig, referenced: set<string>, lines: seq<Line>, w: World,
    touched: seq<string>)
  {
    forall x :: x in touched <==> Gone(k, referenced, lines, x) || SymbolTouched(k, w, lines, |k.symbols|, x)
  }

  ghost predicate SymbolTouched(k: Kconfig, w: World, lines: seq<Line>, n: nat, x: string) {
    exists s: nat :: s < n && k.Sym(s).name == x && Touches(k.Sym(s).origType, w.str(s), OldVal(k, lines, s))
  }

  lemma {:induction false} TouchedIsNames(k: Kconfig, w: World, lines: seq<Line>, n: nat)
    ensures forall x :: x in TouchedNames(k, w, lines, n) <==> SymbolTouched(k, w, lines, n, x)
  {
    if n > 0 {
      TouchedIsNames(k, w, lines, n - 1);
      forall x ensures x in TouchedNames(k, w, lines, n) <==> SymbolTouched(k, w, lines, n, x) {
        if SymbolTouched(k, w, lines, n - 1, x) { assert SymbolTouched(k, w, lines, n, x); }
      }
    }
  }

  // ----- Soundness -----

  /** The old value that an optional line gives to `s`. */
  function LineOldVal(k: Kconfig, l: Option<Line>, s: nat): Option<string> {
    if l.Some? && l.value.Assign? && Lookup(k, l.value.name) == Some(s)
    then OldText(k.Sym(s).origType, l.value.rhs) else None
  }

  lemma OldValOfExtension(k: Kconfig, lines: seq<Line>, l: Option<Line>, s: nat)
    ensures OldVal(k, lines + OptLine(l), s) == OrElse(LineOldVal(k, l, s), OldVal(k, lines, s))
  {
    var more := lines + OptLine(l);
    if l.Some? { assert more[..|lines|] == lines; } else { assert more == lines; }
  }

  ghost predicate OldValsOwn(k: Kconfig, f: nat -> Option<Line>) {
    forall i: nat, s: nat {:trigger LineOldVal(k, f(i), s)} ::
      i < |k.symbols| && i != s ==> LineOldVal(k, f(i), s) == None
  }

  lemma OldValStep(k: Kconfig, f: nat -> Option<Line>, n: nat, s: nat)
    ensures OldVal(k, Lines(f, n + 1), s) == OrElse(LineOldVal(k, f(n), s), OldVal(k, Lines(f, n), s))
  {
    OldValOfExtension(k, Lines(f, n), f(n), s);
    assert Lines(f, n + 1) == Lines(f, n) + OptLine(f(n));
  }

  lemma AutoConfOldVal(k: Kconfig, f: nat -> Option<Line>, n: nat, s: nat)
    requires OldValsOwn(k, f) && n <= |k.symbols|
    ensures OldVal(k, Lines(f, n), s) == if s < n then LineOldVal(k, f(s), s) else None
  {
    var last, entry := (i: nat) => OldVal(k, Lines(f, i), s), (i: nat) => LineOldVal(k, f(i), s);
    forall i: nat | i < n ensures last(i + 1) == OrElse(entry(i), last(i)) { OldValStep(k, f, i, s); }
    forall i: nat | i < n && i != s ensures entry(i) == None { assert LineOldVal(k, f(i), s) == None; }
    LastWins(last, entry, n, s);
  }

  /** Values as evaluation produces them: n, m or y for bool and tristate symbols. */
  ghost predicate ProperValues(k: Kconfig, w: World) {
    forall s: nat :: BoolTristate(k.Sym(s).origType) ==> w.str(s).val in {"n", "m", "y"}
  }

  /** The old value of a symbol is the one it had when auto.conf was written. */
  lemma OldValIs(k: Kconfig, w: World, s: nat)
    requires NamesOk(k) && ProperValues(k, w) && s < |k.symbols|
    ensures OldVal(k, AutoConf(k, w), s) ==
      if w.str(s).write && !(BoolTristate(k.Sym(s).origType) && w.str(s).val == "n") then Some(w.str(s).val) else None
  {
    var f := AutoLines(k, w);
    forall i: nat, x: nat | i < |k.symbols| && i != x ensures LineOldVal(k, f(i), x) == None {
      assert f(i) == AutoLine(k, i, w.str(i));
    }
    AutoConfOldVal(k, f, |k.symbols|, s);
    assert f(s) == AutoLine(k, s, w.str(s));
    if k.Sym(s).origType == STRING { ConfStringRoundTrip(w.str(s).val); }
  }

  /** The value of a hex symbol was and is written, and only its spelling changed: with or
      without the prefix 0x. */
  predicate Respelled(a: StrVal, b: StrVal) {
    a.write && b.write && a.val != b.val && HexText(a.val) == HexText(b.val)
  }

  /** Between two runs of the same configuration, sync_deps() touches exactly the bool,
      tristate, int and string symbols whose autoconf.h line changed.  It does so for a hex
      symbol if and only if the symbol was not merely respelled (then it is touched although
      its line is the same).  A symbol with the same written value is never touched. */
  lemma SyncSound(k: Kconfig, w1: World, w2: World, s: nat)
    requires NamesOk(k) && ProperValues(k, w1) && ProperValues(k, w2) && s < |k.symbols|
    ensures var t := k.Sym(s).origType;
      var touched := Touches(t, w2.str(s), OldVal(k, AutoConf(k, w1), s));
      var changed := HeaderText(t, w1.str(s)) != HeaderText(t, w2.str(s));
      && (t in {BOOL, TRISTATE, INT, STRING} ==> (touched <==> changed))
      && (t == HEX ==> ((touched <==> changed) <==> !Respelled(w1.str(s), w2.str(s))))
      && (t == HEX ==> (touched <==> changed || Respelled(w1.str(s), w2.str(s))))
      && (w1.str(s) == w2.str(s) ==> !touched)
  {
    OldValIs(k, w1, s);
    var a, b := w1.str(s).val, w2.str(s).val;
    var t := k.Sym(s).origType;
    if t == STRING {
      ConfStringRoundTrip(a);
      ConfStringRoundTrip(b);
      assert (" " + Quoted(a))[1..] == Quoted(a) && (" " + Quoted(b))[1..] == Quoted(b);
    } else if t == HEX {
      assert (" " + HexText(a))[1..] == HexText(a) && (" " + HexText(b))[1..] == HexText(b);
    } else {
      assert (" " + a)[1..] == a && (" " + b)[1..] == b;
    }
  }

  lemma {:induction false} NothingTouched(k: Kconfig, w: World, lines: seq<Line>, n: nat)
    requires forall s: nat :: s < n ==> !Touches(k.Sym(s).origType, w.str(s), OldVal(k, lines, s))
    ensures TouchedNames(k, w, lines, n) == []
  {
    if n > 0 { NothingTouched(k, w, lines, n - 1); }
  }

  lemma {:induction false} NoneVanished(k: Kconfig, referenced: set<string>, lines: seq<Line>)
    requires forall i :: 0 <= i < |lines| && lines[i].Assign? ==> Lookup(k, lines[i].name).Some?
    ensures Vanished(k, referenced, lines) == []
  {
    if lines != [] { NoneVanished(k, referenced, lines[..|lines| - 1]); }
  }

  lemma {:induction false} LinesAre(f: nat -> Option<Line>, n: nat)
    ensures forall l :: l in Lines(f, n) ==> exists s: nat :: s < n && f(s) == Some(l)
    ensures forall s: nat :: s < n && f(s).Some? ==> f(s).value in Lines(f, n)
  {
    if n > 0 {
      LinesAre(f, n - 1);
      var prev, more := Lines(f, n - 1), OptLine(f(n - 1));
      forall l | l in prev + more ensures exists s: nat :: s < n && f(s) == Some(l) {
        if l in prev {
          var s: nat :| s < n - 1 && f(s) == Some(l);
          assert s < n && f(s) == Some(l);
        } else {
          assert f(n - 1) == Some(l);
        }
      }
    }
  }

  /** The lines of auto.conf: which symbols they are for. */
  lemma AutoConfLines(k: Kconfig, w: World)
    requires NamesOk(k)
    ensures var lines := AutoConf(k, w);
      && (forall i :: 0 <= i < |lines| && lines[i].Assign? ==> Lookup(k, lines[i].name).Some?)
      && (NoKeyLines(k, lines) <==> forall s: nat :: s < |k.symbols| && k.Sym(s).origType == KEY ==> !w.str(s).write)
  {
    var f, lines := AutoLines(k, w), AutoConf(k, w);
    LinesAre(f, |k.symbols|);
    forall i | 0 <= i < |lines| && lines[i].Assign?
      ensures exists s: nat ::
        s < |k.symbols| && Lookup(k, lines[i].name) == Some(s) && f(s) == Some(lines[i]) && w.str(s).write
    {
      var s: nat :| s < |k.symbols| && f(s) == Some(lines[i]);
      assert f(s) == AutoLine(k, s, w.str(s)) && Lookup(k, k.Sym(s).name) == Some(s);
    }
    forall s: nat | s < |k.symbols| && k.Sym(s).origType == KEY && w.str(s).write
      ensures exists i :: 0 <= i < |lines| && KeyLine(k, lines[i])
    {
      assert f(s) == AutoLine(k, s, w.str(s)) && f(s).value in lines && Lookup(k, k.Sym(s).name) == Some(s);
      var i :| 0 <= i < |lines| && lines[i] == f(s).value;
      assert KeyLine(k, lines[i]);
    }
  }

  /** A second run without a change touches nothing. */
  lemma SecondRunTouchesNothing(k: Kconfig, referenced: set<string>, w: World)
    requires NamesOk(k) && ProperValues(k, w)
    ensures Vanished(k, referenced, AutoConf(k, w)) + TouchedNames(k, w, AutoConf(k, w), |k.symbols|) == []
  {
    forall s: nat | s < |k.symbols| ensures !Touches(k.Sym(s).origType, w.str(s), OldVal(k, AutoConf(k, w), s)) {
      SyncSound(k, w, w, s);
    }
    NothingTouched(k, w, AutoConf(k, w), |k.symbols|);
    NoVanishing(k, referenced, w);
  }

  lemma NoVanishing(k: Kconfig, referenced: set<string>, w: World)
    requires NamesOk(k)
    ensures forall n: nat :: n <= |AutoConf(k, w)| ==> Vanished(k, referenced, AutoConf(k, w)[..n]) == []
    ensures Vanished(k, referenced, AutoConf(k, w)) == []
  {
    AutoConfLines(k, w);
    forall n: nat | n <= |AutoConf(k, w)| ensures Vanished(k, referenced, AutoConf(k, w)[..n]) == [] {
      NoneVanished(k, referenced, AutoConf(k, w)[..n]);
    }
    assert AutoConf(k, w)[..|AutoConf(k, w)|] == AutoConf(k, w);
  }

  /** The values of every user state are proper. */
  lemma EvaluatedIsProper(k: Kconfig, u: User, w: World)
    requires Solves(k, u, w)
    ensures ProperValues(k, w)
  {
    forall s: nat | BoolTristate(k.Sym(s).origType) ensures w.str(s).val in {"n", "m", "y"} {
      assert Look(w, StrOf(s)) == Step(k, u, StrOf(s), w);
    }
  }

  // ----- A hex symbol that is touched for its spelling -----

  function ParseTen(s: string, base: nat): Option<int> { if s == "10" || s == "0x10" then Some(16) else None }

  /** One hex symbol with a prompt. */
  const HexConfig := Kconfig(
    [SymbolDef("H", HEX, [Y], [], [], N, N, Y, None, false)], [], None,
    Numerals(ParseTen, (i: int) => "", (i: int) => "0x10"))

  function HexRank(q: Query): nat {
    match q case Vis(_) => 0 case CVis(_) => 0 case StrOf(_) => 1 case _ => 2
  }

  function Spelled(text: string): User { NoUser.(vals := map[0 := Text(text)]) }

  lemma HexConfigOk(text: string)
    requires text == "10" || text == "0x10"
    ensures ChoicesOk(HexConfig) && WellRanked(HexConfig, HexRank) && NamesOk(HexConfig)
    ensures ValidUser(HexConfig, Spelled(text))
  {
    var k := HexConfig;
    forall q, r | r in Reads(k, q) ensures HexRank(r) < HexRank(q) {
      if q.Vis? || q.TriOf? || q.StrOf? || q.Asg? {
        assert k.Sym(q.s) == if q.s == 0 then k.symbols[0] else NoSymbol;
        assert ExprsReads(k, k.Sym(q.s).prompts) == {} && TypeReads(k, q.s) == {};
        assert DefaultReads(k, q.s) == {} && RangeReads(k, q.s) == {};
      }
    }
    assert LookupFrom(k, "H", 0) == Some(0);
  }

  lemma HexValue(text: string, w: World)
    requires (text == "10" || text == "0x10") && Solves(HexConfig, Spelled(text), w)
    ensures w.str(0) == StrVal(text, true)
  {
    var k, u := HexConfig, Spelled(text);
    assert [Y][..0] == [] && MaxVal(k, u, [Y], w) == 2;
    assert Look(w, Vis(0)) == Step(k, u, Vis(0), w) && Look(w, StrOf(0)) == Step(k, u, StrOf(0), w);
    assert w.vis(0) == 2 && ActiveRange(k, u, 0, w) == Unbounded;
    assert UserNumberInUse(k, u, 0, w);
  }

  /** The user writes 10 before one run and 0x10 before the next: the line in autoconf.h is
      the same, and the symbol is touched. */
  lemma HexRespelling()
    ensures var w1, w2 := Eval(HexConfig, Spelled("10")), Eval(HexConfig, Spelled("0x10"));
      && HeaderText(HEX, w1.str(0)) == HeaderText(HEX, w2.str(0)) && Respelled(w1.str(0), w2.str(0))
      && Touches(HEX, w2.str(0), OldVal(HexConfig, AutoConf(HexConfig, w1), 0))
  {
    var k, w1, w2 := HexConfig, Eval(HexConfig, Spelled("10")), Eval(HexConfig, Spelled("0x10"));
    HexConfigOk("10");
    HexConfigOk("0x10");
    EvalSolves(k, HexRank, Spelled("10"));
    EvalSolves(k, HexRank, Spelled("0x10"));
    HexValue("10", w1);
    HexValue("0x10", w2);
    EvaluatedIsProper(k, Spelled("10"), w1);
    EvaluatedIsProper(k, Spelled("0x10"), w2);
    assert "10"[0] != "0x"[0] && "10"[0] != "0X"[0] && "0x" + "10" == "0x10";
    SyncSound(k, w1, w2, 0);
  }

  // ----- A key symbol after which every further run raises an exception -----

  /** One key symbol with a prompt. */
  const KeyConfig := HexConfig.(symbols := [SymbolDef("K", KEY, [Y], [], [], N, N, Y, None, false)])

  lemma KeyConfigOk()
    ensures ChoicesOk(KeyConfig) && WellRanked(KeyConfig, HexRank) && NamesOk(KeyConfig) && ValidUser(KeyConfig, NoUser)
  {
    var k := KeyConfig;
    forall q, r | r in Reads(k, q) ensures HexRank(r) < HexRank(q) {
      if q.Vis? || q.TriOf? || q.StrOf? || q.Asg? {
        assert k.Sym(q.s) == if q.s == 0 then k.symbols[0] else NoSymbol;
        assert ExprsReads(k, k.Sym(q.s).prompts) == {} && TypeReads(k, q.s) == {} && DefaultReads(k, q.s) == {};
      }
    }
    assert LookupFrom(k, "K", 0) == Some(0);
  }

  /** Nobody has set anything, and the auto.conf of the first run already has the line that
      makes the second one raise the exception. */
  lemma KeyRaises()
    ensures !NoKeyLines(KeyConfig, AutoConf(KeyConfig, Eval(KeyConfig, NoUser)))
  {
    var k, w := KeyConfig, Eval(KeyConfig, NoUser);
    KeyConfigOk();
    EvalSolves(k, HexRank, NoUser);
    assert [Y][..0] == [] && MaxVal(k, NoUser, [Y], w) == 2;
    assert Look(w, Vis(0)) == Step(k, NoUser, Vis(0), w) && Look(w, StrOf(0)) == Step(k, NoUser, StrOf(0), w);
    assert w.vis(0) == 2 && w.str(0).write;
    AutoConfLines(k, w);
  }

  // ----- Two builds with anything in between -----

  lemma {:induction false} TouchedAre(k: Kconfig, w: World, lines: seq<Line>, n: nat, s: nat)
    requires NamesOk(k) && n <= |k.symbols| && s < |k.symbols|
    ensures k.Sym(s).name in TouchedNames(k, w, lines, n) <==>
      s < n && Touches(k.Sym(s).origType, w.str(s), OldVal(k, lines, s))
  {
    if n > 0 {
      TouchedAre(k, w, lines, n - 1, s);
      assert Lookup(k, k.Sym(s).name) == Some(s) && Lookup(k, k.Sym(n - 1).name) == Some(n - 1);
    }
  }

  /** sync_deps(), any sequence of changes, sync_deps() again.  The second call raises an
      exception if and only if the first one wrote the line of a key symbol, and touches
      nothing then.  Otherwise it touches exactly the bool, tristate, int and string symbols
      whose header line differs between the two states and the hex symbols whose line differs
      or that were respelled; and nothing at all if no written value differs. */
  method Rebuild(kc: Kconf, referenced: set<string>, before: seq<Line>, ops: seq<Op>) returns (ok: bool,
                 touched: seq<string>)
    requires kc.Valid() && NamesOk(kc.k) && NoKeyLines(kc.k, before) && forall op <- ops :: OpOk(kc.k, op)
    modifies kc
    ensures kc.Valid() && kc.user == UserAfter(kc.k, old(kc.user), ops)
    ensures ok <==> forall s: nat :: s < |kc.k.symbols| && kc.k.Sym(s).origType == KEY ==> !old(kc.Now()).str(s).write
    ensures !ok ==> touched == []
    ensures ok ==> TouchedRight(kc.k, old(kc.Now()), kc.Now(), touched)
  {
    ghost var k, w1 := kc.k, kc.Now();
    var _, _, auto := Sync(kc, referenced, before);
    EvalProper(kc);
    Run(kc, ops);
    EvalProper(kc);
    ghost var w2 := kc.Now();
    var next;
    ok, touched, next := Sync(kc, referenced, auto);
    AutoConfLines(k, w1);
    NoVanishing(k, referenced, w1);
    if ok { TouchedIsRight(k, w1, w2, touched); }
  }

  ghost predicate TouchedRight(k: Kconfig, w1: World, w2: World, touched: seq<string>) {
    && (forall s: nat {:trigger k.Sym(s)} :: s < |k.symbols| ==>
          var t := k.Sym(s).origType;
          var changed := HeaderText(t, w1.str(s)) != HeaderText(t, w2.str(s));
          && (t in {BOOL, TRISTATE, INT, STRING} ==> (k.Sym(s).name in touched <==> changed))
          && (t == HEX ==> (k.Sym(s).name in touched <==> changed || Respelled(w1.str(s), w2.str(s)))))
    && ((forall s: nat :: s < |k.symbols| ==> w1.str(s) == w2.str(s)) ==> touched == [])
  }

  lemma TouchedIsRight(k: Kconfig, w1: World, w2: World, touched: seq<string>)
    requires NamesOk(k) && ProperValues(k, w1) && ProperValues(k, w2)
    requires touched == [] + TouchedNames(k, w2, AutoConf(k, w1), |k.symbols|)
    ensures TouchedRight(k, w1, w2, touched)
  {
    var auto := AutoConf(k, w1);
    forall s: nat | s < |k.symbols|
      ensures k.Sym(s).name in touched <==> Touches(k.Sym(s).origType, w2.str(s), OldVal(k, auto, s))
    {
      TouchedAre(k, w2, auto, |k.symbols|, s);
    }
    forall s: nat | s < |k.symbols| { SyncSound(k, w1, w2, s); }
    if forall s: nat :: s < |k.symbols| ==> w1.str(s) == w2.str(s) { NothingTouched(k, w2, auto, |k.symbols|); }
  }

  lemma EvalProper(kc: Kconf)
    requires kc.Valid()
    ensures ProperValues(kc.k, kc.Now())
  {
    EvalSolves(kc.k, kc.rk, kc.user);
    EvaluatedIsProper(kc.k, kc.user, kc.Now());
  }
}

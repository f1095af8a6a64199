/**
  sync_deps() between two versions of the Kconfig files: what is touched when symbols were
  added, removed and changed in between.
 */
module Reconfigure {
  import opened Model
  import opened Evaluation
  import opened Engine
  import opened Strings
  import opened ConfigFile
  import opened LineMeaning
  import opened Values
  import opened RoundTrip
  import opened SyncDeps

  // ----- Old values -----

  /** The line gives symbol `s` the old value `v`: strings are quoted, and everything else is
      taken as it is. */
  ghost function OldSaid(k: Kconfig, s: nat): (Line, string) -> bool {
    (l: Line, v: string) =>
      && l.Assign? && Named(k, l.name, s)
      && if k.Sym(s).origType == STRING then exists ps :: LiteralAt(l.rhs, ps) && v == Denoted(ps) else v == l.rhs
  }

  function OldEntry(k: Kconfig, s: nat): Line -> Option<string> { (l: Line) => LineOldVal(k, Some(l), s) }

  lemma LiteralOld(rhs: string, v: string)
    ensures (exists ps :: LiteralAt(rhs, ps) && v == Denoted(ps)) <==> OldText(STRING, rhs) == Some(v)
  {
    forall ps | LiteralAt(rhs, ps) && v == Denoted(ps) ensures OldText(STRING, rhs) == Some(v) {
      LiteralIs(rhs, ps);
    }
    if ConfString(rhs).Some? {
      var ps := LiteralExists(rhs);
      LiteralIs(rhs, ps);
    }
  }

  lemma OldSaidIs(k: Kconfig, s: nat)
    ensures forall l, v :: OldSaid(k, s)(l, v) <==> OldEntry(k, s)(l) == Some(v)
  {
    forall l, v ensures OldSaid(k, s)(l, v) <==> OldEntry(k, s)(l) == Some(v) {
      if l.Assign? {
        LookupIs(k, l.name, s);
        LiteralOld(l.rhs, v);
      }
    }
  }

  lemma {:induction false} OldFold(k: Kconfig, lines: seq<Line>, s: nat)
    ensures OldVal(k, lines, s) == LastEntry(lines, OldEntry(k, s))
  {
    if lines != [] { OldFold(k, lines[..|lines| - 1], s); }
  }

  /** The old value of a symbol is what the last line that gives it one gives it. */
  lemma OldValueIs(k: Kconfig, lines: seq<Line>, s: nat)
    ensures forall v :: OldVal(k, lines, s) == Some(v) <==> LastSaid(lines, OldSaid(k, s), v)
    ensures OldVal(k, lines, s).None? <==> NoneSays(lines, OldSaid(k, s))
  {
    OldSaidIs(k, s);
    OldFold(k, lines, s);
    LastEntryIs(lines, OldSaid(k, s), OldEntry(k, s));
  }

  // ----- Two configurations -----

  /** The autoconf.h line for a name: None if there is none. */
  function HeaderOf(k: Kconfig, w: World, x: string): Option<string> {
    match Lookup(k, x) case Some(s) => HeaderText(k.Sym(s).origType, w.str(s)) case None => None
  }

  /** The symbol of that name, where there is one, is bool, tristate, int or string, and of
      the same type in both. */
  predicate Comparable(k1: Kconfig, k2: Kconfig, x: string) {
    var s1, s2 := Lookup(k1, x), Lookup(k2, x);
    && (s1.Some? ==> k1.Sym(s1.value).origType in {BOOL, TRISTATE, INT, STRING})
    && (s2.Some? ==> k2.Sym(s2.value).origType in {BOOL, TRISTATE, INT, STRING})
    && (s1.Some? && s2.Some? ==> k1.Sym(s1.value).origType == k2.Sym(s2.value).origType)
  }

  /** The text of a written value in auto.conf. */
  function OldWritten(k: Kconfig, w: World, s: nat): Option<string> {
    if w.str(s).write && !(BoolTristate(k.Sym(s).origType) && w.str(s).val == "n") then Some(w.str(s).val) else None
  }

  /** What the old file says about a symbol of the new configuration. */
  lemma {:induction false} OldValAcross(k1: Kconfig, k2: Kconfig, w: World, x: string, s2: nat)
    requires NamesOk(k1) && NamesOk(k2) && ProperValues(k1, w) && Comparable(k1, k2, x) && Lookup(k2, x) == Some(s2)
    ensures OldVal(k2, AutoConf(k1, w), s2) ==
      match Lookup(k1, x) case Some(s1) => OldWritten(k1, w, s1) case None => None
  {
    var f := AutoLines(k1, w);
    var at := if Lookup(k1, x).Some? then Lookup(k1, x).value else |k1.symbols|;
    forall i: nat | i < |k1.symbols| && i != at ensures LineOldVal(k2, f(i), s2) == None {
      OtherLine(k1, k2, w, x, s2, i);
    }
    OnlyLine(k2, f, |k1.symbols|, s2, at);
    if at < |k1.symbols| { OwnLine(k1, k2, w, x, s2, at); }
  }

  /** One line alone gives the symbol an old value. */
  lemma OnlyLine(k: Kconfig, f: nat -> Option<Line>, n: nat, s: nat, at: nat)
    requires forall i: nat :: i < n && i != at ==> LineOldVal(k, f(i), s) == None
    ensures OldVal(k, Lines(f, n), s) == if at < n then LineOldVal(k, f(at), s) else None
  {
    var last, entry := (i: nat) => OldVal(k, Lines(f, i), s), (i: nat) => LineOldVal(k, f(i), s);
    forall i: nat | i < n ensures last(i + 1) == OrElse(entry(i), last(i)) { OldValStep(k, f, i, s); }
    LastWins(last, entry, n, at);
  }

  lemma {:induction false} OtherLine(k1: Kconfig, k2: Kconfig, w: World, x: string, s2: nat, i: nat)
    requires NamesOk(k1) && Lookup(k2, x) == Some(s2) && i < |k1.symbols| && Lookup(k1, x) != Some(i)
    ensures LineOldVal(k2, AutoLines(k1, w)(i), s2) == None
  {
    assert AutoLines(k1, w)(i) == AutoLine(k1, i, w.str(i));
    assert Lookup(k1, k1.Sym(i).name) == Some(i);
  }

  lemma {:induction false} OwnLine(k1: Kconfig, k2: Kconfig, w: World, x: string, s2: nat, s1: nat)
    requires ProperValues(k1, w) && Comparable(k1, k2, x) && Lookup(k1, x) == Some(s1) && Lookup(k2, x) == Some(s2)
    ensures LineOldVal(k2, AutoLines(k1, w)(s1), s2) == OldWritten(k1, w, s1)
  {
    assert AutoLines(k1, w)(s1) == AutoLine(k1, s1, w.str(s1));
    if k1.Sym(s1).origType == STRING { ConfStringRoundTrip(w.str(s1).val); }
  }

  lemma ChangeShows(t: Type, v1: StrVal, v2: StrVal)
    requires t in {BOOL, TRISTATE, INT, STRING}
    requires BoolTristate(t) ==> v1.val in {"n", "m", "y"} && v2.val in {"n", "m", "y"}
    ensures var was := if v1.write && !(BoolTristate(t) && v1.val == "n") then Some(v1.val) else None;
      Touches(t, v2, was) <==> HeaderText(t, v1) != HeaderText(t, v2)
  {
    if t == STRING {
      ConfStringRoundTrip(v1.val);
      ConfStringRoundTrip(v2.val);
      assert (" " + Quoted(v1.val))[1..] == Quoted(v1.val) && (" " + Quoted(v2.val))[1..] == Quoted(v2.val);
    } else if t == INT {
      assert (" " + v1.val)[1..] == v1.val && (" " + v2.val)[1..] == v2.val;
    }
  }

  /** The symbol is touched if and only if its header line changed, also if it is new. */
  lemma TouchedAcross(k1: Kconfig, k2: Kconfig, w1: World, w2: World, x: string, s2: nat)
    requires NamesOk(k1) && NamesOk(k2) && ProperValues(k1, w1) && ProperValues(k2, w2)
    requires Comparable(k1, k2, x) && Lookup(k2, x) == Some(s2)
    ensures Touches(k2.Sym(s2).origType, w2.str(s2), OldVal(k2, AutoConf(k1, w1), s2)) <==>
      HeaderOf(k1, w1, x) != HeaderOf(k2, w2, x)
  {
    OldValAcross(k1, k2, w1, x, s2);
    match Lookup(k1, x)
    case None =>
    case Some(s1) => ChangeShows(k2.Sym(s2).origType, w1.str(s1), w2.str(s2));
  }

  /** A symbol has a line in auto.conf if and only if it has one in autoconf.h. */
  lemma {:induction false} BothLines(k: Kconfig, w: World, s: nat)
    requires ProperValues(k, w) && k.Sym(s).origType in {BOOL, TRISTATE, INT, STRING}
    ensures AutoLines(k, w)(s).Some? <==> HeaderText(k.Sym(s).origType, w.str(s)).Some?
    ensures AutoLines(k, w)(s).Some? ==>
      AutoLines(k, w)(s).value.Assign? && AutoLines(k, w)(s).value.name == k.Sym(s).name
  {
    assert AutoLines(k, w)(s) == AutoLine(k, s, w.str(s));
  }

  lemma {:induction false} OwnName(k: Kconfig, w: World, s: nat)
    ensures AutoLines(k, w)(s).Some? && AutoLines(k, w)(s).value.Assign? ==>
      AutoLines(k, w)(s).value.name == k.Sym(s).name
  {
    assert AutoLines(k, w)(s) == AutoLine(k, s, w.str(s));
  }

  /** A name is assigned in auto.conf if and only if it had a header line. */
  lemma {:induction false} AssignedNames(k: Kconfig, w: World, x: string)
    requires NamesOk(k) && ProperValues(k, w)
    requires Lookup(k, x).Some? ==> k.Sym(Lookup(k, x).value).origType in {BOOL, TRISTATE, INT, STRING}
    ensures var lines := AutoConf(k, w);
      (exists i :: 0 <= i < |lines| && lines[i].Assign? && lines[i].name == x) <==> HeaderOf(k, w, x).Some?
  {
    var f, lines := AutoLines(k, w), AutoConf(k, w);
    LinesAre(f, |k.symbols|);
    forall i | 0 <= i < |lines| && lines[i].Assign? && lines[i].name == x ensures HeaderOf(k, w, x).Some? {
      assert lines[i] in lines;
      var s: nat :| s < |k.symbols| && f(s) == Some(lines[i]);
      OwnName(k, w, s);
      assert Lookup(k, k.Sym(s).name) == Some(s);
      BothLines(k, w, s);
    }
    if HeaderOf(k, w, x).Some? {
      var s := Lookup(k, x).value;
      BothLines(k, w, s);
      var i :| 0 <= i < |lines| && lines[i] == f(s).value;
      assert lines[i].Assign? && lines[i].name == x;
    }
  }

  /** A name is gone if no symbol has it any more, no expression mentions it, and it had a
      header line. */
  lemma {:induction false} GoneAcross(k1: Kconfig, k2: Kconfig, referenced: set<string>, w: World, x: string)
    requires NamesOk(k1) && ProperValues(k1, w) && Comparable(k1, k2, x)
    ensures Gone(k2, referenced, AutoConf(k1, w), x) <==>
      x !in referenced && Lookup(k2, x).None? && HeaderOf(k1, w, x).Some?
  {
    NoSuchName(k2, x, 0);
    AssignedNames(k1, w, x);
  }

  /** What is touched when the auto.conf is that of another configuration. */
  ghost predicate TouchedAcrossExactly(k1: Kconfig, k2: Kconfig, referenced: set<string>, w1: World, w2: World,
    touched: seq<string>)
  {
    forall x :: Comparable(k1, k2, x) ==>
      (x in touched <==> HeaderOf(k1, w1, x) != HeaderOf(k2, w2, x) && !(Lookup(k2, x).None? && x in referenced))
  }

  lemma TouchedAcrossIs(k1: Kconfig, k2: Kconfig, referenced: set<string>, w1: World, w2: World, touched: seq<string>)
    requires NamesOk(k1) && NamesOk(k2) && ProperValues(k1, w1) && ProperValues(k2, w2)
    requires TouchedExactly(k2, referenced, AutoConf(k1, w1), w2, touched)
    ensures TouchedAcrossExactly(k1, k2, referenced, w1, w2, touched)
  {
    var lines := AutoConf(k1, w1);
    forall x | Comparable(k1, k2, x)
      ensures x in touched <==>
        HeaderOf(k1, w1, x) != HeaderOf(k2, w2, x) && !(Lookup(k2, x).None? && x in referenced)
    {
      GoneAcross(k1, k2, referenced, w1, x);
      if Lookup(k2, x).Some? {
        var s2 := Lookup(k2, x).value;
        TouchedAcross(k1, k2, w1, w2, x, s2);
        OnlyByName(k2, w2, lines, x, s2);
      } else {
        NoSuchName(k2, x, 0);
      }
    }
  }

  lemma OnlyByName(k: Kconfig, w: World, lines: seq<Line>, x: string, s: nat)
    requires NamesOk(k) && Lookup(k, x) == Some(s)
    ensures SymbolTouched(k, w, lines, |k.symbols|, x) <==> Touches(k.Sym(s).origType, w.str(s), OldVal(k, lines, s))
  {
    forall i: nat | i < |k.symbols| && k.Sym(i).name == x ensures i == s {
      assert Lookup(k, k.Sym(i).name) == Some(i);
    }
  }

  /** A build, a change of the Kconfig files, and the next build.  Of the names whose symbols
      are bool, tristate, int or string, and did not change their type, the second run touches
      exactly those whose header line changed, appeared or vanished; except that a name whose
      symbol was removed is not touched if some expression still mentions it. */
  method RebuildAcross(kc1: Kconf, kc2: Kconf, referenced1: set<string>, referenced2: set<string>, before: seq<Line>)
    returns (ok: bool, touched: seq<string>)
    requires kc1 != kc2 && kc1.Valid() && kc2.Valid() && NamesOk(kc1.k) && NamesOk(kc2.k)
    requires NoKeyLines(kc1.k, before)
    modifies kc1`cache, kc2`cache
    ensures kc1.Valid() && kc2.Valid()
    ensures ok <==> NoKeyLines(kc2.k, AutoConf(kc1.k, kc1.Now()))
    ensures ok ==> TouchedAcrossExactly(kc1.k, kc2.k, referenced2, kc1.Now(), kc2.Now(), touched)
  {
    var _, _, auto := Sync(kc1, referenced1, before);
    var next;
    ok, touched, next := Sync(kc2, referenced2, auto);
    EvalProper(kc1);
    EvalProper(kc2);
    if ok { TouchedAcrossIs(kc1.k, kc2.k, referenced2, kc1.Now(), kc2.Now(), touched); }
  }

  /** When the second run is exact: a name is touched if and only if its header line changed,
      unless it had one, lost its symbol, and is still mentioned. */
  lemma ExactUnlessMentioned(k1: Kconfig, k2: Kconfig, referenced: set<string>, w1: World, w2: World, x: string,
    touched: seq<string>)
    requires TouchedAcrossExactly(k1, k2, referenced, w1, w2, touched) && Comparable(k1, k2, x)
    ensures (x in touched <==> HeaderOf(k1, w1, x) != HeaderOf(k2, w2, x)) <==>
      !(HeaderOf(k1, w1, x).Some? && Lookup(k2, x).None? && x in referenced)
  {
  }

  // A removed symbol that is still mentioned: OLD is bool with the default y in the first
  // configuration and has no definition in the second one.

  const WithOld := Kconfig([Defaulting("OLD", BOOL, 2)], [], None, NoNumerals)
  const WithoutOld := Kconfig([], [], None, NoNumerals)

  function OldRank(q: Query): nat {
    match q case Vis(_) => 0 case CVis(_) => 0 case TriOf(_) => 1 case StrOf(_) => 2 case _ => 3
  }

  lemma WithOldOk()
    ensures ChoicesOk(WithOld) && WellRanked(WithOld, OldRank) && ValidUser(WithOld, NoUser)
    ensures NamesOk(WithOld) && NamesOk(WithoutOld)
  {
    var k := WithOld;
    forall q, r | r in Reads(k, q) ensures OldRank(r) < OldRank(q) {
      if q.Vis? || q.TriOf? || q.StrOf? || q.Asg? {
        assert k.Sym(q.s) == if q.s == 0 then k.symbols[0] else NoSymbol;
        assert ExprsReads(k, k.Sym(q.s).prompts) == {} && TypeReads(k, q.s) == {} && DefaultReads(k, q.s) == {};
        assert RangeReads(k, q.s) == {} && AsgReads(k, q.s) == {};
      }
    }
    assert LookupFrom(k, "OLD", 0) == Some(0);
  }

  /** Its header line is gone after the second run, and its file is not touched. */
  lemma MentionedIsMissed(w2: World, touched: seq<string>)
    requires Solves(WithoutOld, NoUser, w2)
    requires TouchedExactly(WithoutOld, {"OLD"}, AutoConf(WithOld, Eval(WithOld, NoUser)), w2, touched)
    ensures HeaderOf(WithOld, Eval(WithOld, NoUser), "OLD") == Some(" 1") && HeaderOf(WithoutOld, w2, "OLD") == None
    ensures "OLD" !in touched
  {
    var k, w1 := WithOld, Eval(WithOld, NoUser);
    WithOldOk();
    EvalSolves(k, OldRank, NoUser);
    EvaluatedIsProper(k, NoUser, w1);
    EvaluatedIsProper(WithoutOld, NoUser, w2);
    TouchedAcrossIs(k, WithoutOld, {"OLD"}, w1, w2, touched);
    SolvesSymbol(k, NoUser, w1, 0);
    assert LookupFrom(k, "OLD", 0) == Some(0) && Look(w1, StrOf(0)) == Step(k, NoUser, StrOf(0), w1);
    assert Conds(k.Sym(0).defaults) == [Y] && FirstOn(k, NoUser, [Y], w1) == 0;
  }
}

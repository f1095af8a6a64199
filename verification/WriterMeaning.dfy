/**
  What the writers put into .config files and minimal .config files, and why: the form of
  each line, and which lines a minimal file needs.
 */
module WriterMeaning {
  import opened Model
  import opened Evaluation
  import opened Engine
  import opened Strings
  import opened ConfigFile
  import opened LineMeaning
  import opened Values
  import opened RoundTrip
  import SyncDeps
  import Meaning

  // ----- The form of a line -----

  /** Only quotes and backslashes have a backslash before them. */
  predicate Escaping(ps: seq<Piece>) { forall p <- ps :: p.Escaped? <==> p.c == '"' || p.c == '\\' }

  lemma {:induction false} EscapedPieces(v: string) returns (ps: seq<Piece>)
    ensures PiecesOk(ps) && Escaping(ps) && Denoted(ps) == v && Spelled(ps) == EscapeMap(v)
  {
    if v == "" {
      ps := [];
    } else {
      var more := EscapedPieces(v[1..]);
      ps := [if v[0] == '"' || v[0] == '\\' then Escaped(v[0]) else Itself(v[0])] + more;
      assert ps[1..] == more;
    }
  }

  /** The text of a value: n, m or y for levels, the quoted and escaped text for strings, and
      the value itself otherwise. */
  ghost predicate Written(k: Kconfig, w: World, s: nat, line: Line) {
    var d := k.Sym(s);
    match d.origType
    case BOOL => line == LevelLine(d.name, w.tri(s).val)
    case TRISTATE => line == LevelLine(d.name, w.tri(s).val)
    case STRING =>
      exists ps :: PiecesOk(ps) && Escaping(ps) && Denoted(ps) == w.str(s).val
        && line == Assign(d.name, "\"" + Spelled(ps) + "\"")
    case _ => line == Assign(d.name, w.str(s).val)
  }

  function LevelLine(name: string, t: Tri): Line {
    if t == 2 then Assign(name, "y") else if t == 1 then Assign(name, "m") else NotSet(name)
  }

  /** The symbols that get a line, and the line they get. */
  lemma LineForm(k: Kconfig, u: User, w: World, s: nat)
    requires Solves(k, u, w)
    ensures FullLine(k, w)(s).Some? <==> w.str(s).write
    ensures FullLine(k, w)(s).Some? ==> Written(k, w, s, FullLine(k, w)(s).value)
  {
    Meaning.LevelText(k, u, s, w);
    if k.Sym(s).origType == STRING {
      EscapeIsMap(w.str(s).val);
      var ps := EscapedPieces(w.str(s).val);
      assert Quoted(w.str(s).val) == "\"" + Spelled(ps) + "\"";
    }
    Meaning.At(k, u, w, StrOf(s));
  }

  /** What is defined in autoconf.h: nothing for n, FOO for y and FOO_MODULE for m; numbers as
      they are, hexadecimal ones with a prefix. */
  lemma {:induction false} HeaderForm(k: Kconfig, u: User, w: World, s: nat)
    requires Solves(k, u, w)
    ensures var t, v, h := k.Sym(s).origType, w.str(s).val, SyncDeps.HeaderText(k.Sym(s).origType, w.str(s));
      && (h.Some? <==> w.str(s).write && (BoolTristate(t) ==> w.tri(s).val != 0))
      && (h.Some? && BoolTristate(t) ==> h.value == if w.tri(s).val == 2 then " 1" else "_MODULE 1")
      && (h.Some? && t == INT ==> h.value == " " + v)
      && (h.Some? && t == HEX ==> h.value == " " + if "0x" <= v || "0X" <= v then v else "0x" + v)
  {
    Meaning.LevelText(k, u, s, w);
  }

  /** Strings are quoted there, and strings and keys escaped. */
  lemma {:induction false} HeaderOfText(t: Type, v: StrVal) returns (ps: seq<Piece>)
    requires t in {STRING, KEY} && v.write
    ensures PiecesOk(ps) && Escaping(ps) && Denoted(ps) == v.val
    ensures t == STRING ==> SyncDeps.HeaderText(t, v) == Some(" \"" + Spelled(ps) + "\"")
    ensures t == KEY ==> SyncDeps.HeaderText(t, v) == Some(" " + Spelled(ps))
  {
    EscapeIsMap(v.val);
    ps := EscapedPieces(v.val);
    assert " " + Quoted(v.val) == " \"" + Spelled(ps) + "\"";
  }

  // ----- What a minimal file needs -----

  /** A bool or tristate symbol outside choices has a line in the minimal file if and only if
      its visibility exceeds what it is selected to and unsetting it would change its value. */
  lemma MinimalLevel(k: Kconfig, rk: Rank, u: User, s: nat)
    requires ChoicesOk(k) && WellRanked(k, rk) && ValidUser(k, u)
    requires BoolTristate(k.Sym(s).origType) && k.Sym(s).choice.None?
    requires Eval(k, u).vis(s) != 0 ==> ExprVal(k, u, k.Sym(s).directDep, Eval(k, u)) != 0
    ensures var w := Eval(k, u);
      MinLine(k, u, w)(s).Some? <==>
        && w.vis(s) > ExprVal(k, u, k.Sym(s).revDep, w)
        && Eval(k, WithoutValue(u, s)).tri(s).val != w.tri(s).val
  {
    var w := Eval(k, u);
    EvalSolves(k, rk, u);
    Meaning.LevelText(k, u, s, w);
    Meaning.WrittenExactly(k, u, s, w);
    Meaning.At(k, u, w, StrOf(s));
    ValueWithoutUser(k, rk, u, s);
    if w.vis(s) != 0 { DefaultLevelIs(k, u, s, w); }
  }

  /** The value that a symbol has without its user value, in terms of the values with it. */
  lemma ValueWithoutUser(k: Kconfig, rk: Rank, u: User, s: nat)
    requires ChoicesOk(k) && WellRanked(k, rk) && ValidUser(k, u)
    requires BoolTristate(k.Sym(s).origType) && k.Sym(s).choice.None?
    ensures Eval(k, WithoutValue(u, s)).tri(s) == PlainTriStep(k, WithoutValue(u, s), s, Eval(k, u))
  {
    var u', w := WithoutValue(u, s), Eval(k, u);
    var w' := Eval(k, u');
    EvalSolves(k, rk, u);
    EvalSolves(k, rk, u');
    assert ChangedOnlyAt(u, u', s);
    ReadsUnchanged(k, rk, u, u', s, w, w');
    StepCongruent(k, u', u', TriOf(s), w', w);
    Meaning.At(k, u', w', TriOf(s));
  }

  /** Without a user value: the largest of selects, implies and defaults. */
  lemma NoUserLevel(k: Kconfig, u: User, s: nat, w: World)
    requires UserLevel(u, s).None? && ExprVal(k, u, k.Sym(s).directDep, w) != 0
    ensures var d := k.Sym(s);
      var v := Max(ExprVal(k, u, d.revDep, w), Max(ExprVal(k, u, d.weakRevDep, w), DefaultTri(k, u, s, w)));
      PlainTriStep(k, u, s, w).val == if v == 1 && PromotesM(k, u, s, w) then 2 else v
  {
  }

  lemma DefaultLevelIs(k: Kconfig, u: User, s: nat, w: World)
    requires BoolTristate(k.Sym(s).origType) && k.Sym(s).choice.None?
    requires ExprVal(k, u, k.Sym(s).directDep, w) != 0
    ensures StrDefault(k, u, s, w) == TriStr(PlainTriStep(k, WithoutValue(u, s), s, w).val)
  {
    var u' := WithoutValue(u, s);
    SameLevels(k, u, u', s, w);
    NoUserLevel(k, u', s, w);
  }

  lemma SameLevels(k: Kconfig, u: User, u': User, s: nat, w: World)
    requires BoolTristate(k.Sym(s).origType) && u'.modes == u.modes
    ensures var d := k.Sym(s);
      && ExprVal(k, u', d.revDep, w) == ExprVal(k, u, d.revDep, w)
      && ExprVal(k, u', d.weakRevDep, w) == ExprVal(k, u, d.weakRevDep, w)
      && ExprVal(k, u', d.directDep, w) == ExprVal(k, u, d.directDep, w)
      && DefaultTri(k, u', s, w) == DefaultTri(k, u, s, w)
      && PromotesM(k, u', s, w) == PromotesM(k, u, s, w)
      && SymType(k, u', s, w) == SymType(k, u, s, w)
  {
    var d := k.Sym(s);
    SameModesHere(k, u', u, w, DefaultReads(k, s));
    SameModesHere(k, u', u, w, AsgReads(k, s));
    SameModesHere(k, u', u, w, TypeReads(k, s));
    SameModesHere(k, u', u, w, ExprReads(k, d.revDep));
    SameModesHere(k, u', u, w, ExprReads(k, d.weakRevDep));
    SameModesHere(k, u', u, w, ExprReads(k, d.directDep));
    ExprCongruent(k, u', u, d.revDep, w, w);
    ExprCongruent(k, u', u, d.weakRevDep, w, w);
    ExprCongruent(k, u', u, d.directDep, w, w);
    PromotesCongruent(k, u', u, s, w, w);
    DefaultTriCongruent(k, u', u, s, w, w);
    TypeCongruent(k, u', u, s, w, w);
  }

  /** A symbol of another type has a line if and only if its value does not come from the
      environment, its visibility exceeds what it is selected to, and the value is not the one
      that its first active default gives before any range. */
  lemma MinimalText(k: Kconfig, u: User, w: World, s: nat, text: string)
    requires Solves(k, u, w) && k.Sym(s).origType in {STRING, INT, HEX, KEY} && k.Sym(s).choice.None?
    requires Meaning.IsDefaultText(k, u, s, w, text)
    ensures MinLine(k, u, w)(s).Some? <==>
      !k.Sym(s).auto && w.vis(s) > ExprVal(k, u, k.Sym(s).revDep, w) && w.str(s).val != text
  {
    Meaning.WrittenExactly(k, u, s, w);
    Meaning.DefaultTextIs(k, u, s, w, text);
  }

  /** A symbol of a choice has a line if and only if it is not n, and is not a bool symbol
      that the defaults of a choice that must have a selection give y to. */
  lemma MinimalMember(k: Kconfig, u: User, w: World, s: nat, c: nat)
    requires Solves(k, u, w) && BoolTristate(k.Sym(s).origType) && k.Sym(s).choice == Some(c)
    ensures MinLine(k, u, w)(s).Some? <==>
      && w.tri(s).val != 0
      && !(k.Sym(s).origType == BOOL && !k.Ch(c).isOptional && w.tri(s).val == 2
           && Meaning.SelectedByDefault(k, u, c, w, s))
  {
    Meaning.LevelText(k, u, s, w);
    Meaning.WrittenExactly(k, u, s, w);
    Meaning.At(k, u, w, StrOf(s));
    Meaning.SelectedByDefaultIs(k, u, c, w, s);
  }
}

/**
  What the lines of a .config file say, without the matchers that take them apart: which
  line gives which value to which symbol, and what a whole file leaves behind.
 */
module LineMeaning {
  import opened Model
  import opened Evaluation
  import opened Engine
  import opened Strings
  import opened ConfigFile

  // ----- Texts -----

  predicate IsBlank(c: char) { c as int in {9, 10, 11, 12, 13, 28, 29, 30, 31, 32} }

  /** `v` is `text` without the blanks at its end. */
  ghost predicate Stripped(text: string, v: string) {
    && v <= text && (forall i :: |v| <= i < |text| ==> IsBlank(text[i]))
    && (v != [] ==> !IsBlank(v[|v| - 1]))
  }

  lemma {:induction false} StripIs(text: string)
    ensures Stripped(text, RStrip(text))
  {
    if text != [] && Blank(text[|text| - 1]) {
      var front := text[..|text| - 1];
      StripIs(front);
      assert text == front + [text[|front|]];
    }
  }

  lemma StrippedOnce(text: string, v: string, v': string)
    requires Stripped(text, v) && Stripped(text, v')
    ensures v == v'
  {
    assert v' != [] ==> v'[|v'| - 1] == text[|v'| - 1];
    assert v != [] ==> v[|v| - 1] == text[|v| - 1];
  }

  /** A character of a string literal as it is written: as itself, or after a backslash. */
  datatype Piece = Itself(c: char) | Escaped(c: char)

  predicate PieceOk(p: Piece) {
    match p case Itself(c) => c != '\\' && c != '"' case Escaped(c) => c != '\n'
  }

  predicate PiecesOk(ps: seq<Piece>) { forall p <- ps :: PieceOk(p) }

  function Spelled(ps: seq<Piece>): string {
    if ps == [] then []
    else (match ps[0] case Itself(c) => [c] case Escaped(c) => ['\\', c]) + Spelled(ps[1..])
  }

  function Denoted(ps: seq<Piece>): string { if ps == [] then [] else [ps[0].c] + Denoted(ps[1..]) }

  /** The text starts with a string literal of these pieces. */
  predicate LiteralAt(text: string, ps: seq<Piece>) { PiecesOk(ps) && "\"" + Spelled(ps) + "\"" <= text }

  lemma {:induction false} BodyOfPieces(ps: seq<Piece>, rest: string)
    requires PiecesOk(ps)
    ensures LiteralBody(Spelled(ps) + "\"" + rest) == Some(Spelled(ps))
  {
    var t := Spelled(ps) + "\"" + rest;
    if ps == [] {
      assert t[0] == '"';
    } else {
      assert ps[0] in ps;
      assert forall p <- ps[1..] :: p in ps;
      BodyOfPieces(ps[1..], rest);
      var tail := Spelled(ps[1..]) + "\"" + rest;
      if ps[0].Escaped? {
        assert t[..2] == ['\\', ps[0].c] && t[2..] == tail;
      } else {
        assert t[..1] == [ps[0].c] && t[1..] == tail;
      }
    }
  }

  lemma {:induction false} PiecesOfBody(s: string) returns (ps: seq<Piece>)
    requires LiteralBody(s).Some?
    ensures PiecesOk(ps) && Spelled(ps) == LiteralBody(s).value && Spelled(ps) + "\"" <= s
  {
    if s[0] == '"' {
      ps := [];
    } else if s[0] == '\\' {
      var more := PiecesOfBody(s[2..]);
      ps := [Escaped(s[1])] + more;
      assert ps[1..] == more;
      assert s == s[..2] + s[2..] && s[..2] == ['\\', s[1]];
    } else {
      var more := PiecesOfBody(s[1..]);
      ps := [Itself(s[0])] + more;
      assert ps[1..] == more;
      assert s == [s[0]] + s[1..];
    }
  }

  lemma {:induction false} UnescapePieces(ps: seq<Piece>)
    requires PiecesOk(ps)
    ensures Unescape(Spelled(ps)) == Denoted(ps)
  {
    if ps != [] {
      assert ps[0] in ps;
      assert forall p <- ps[1..] :: p in ps;
      UnescapePieces(ps[1..]);
      var t, rest := Spelled(ps), Spelled(ps[1..]);
      if ps[0].Escaped? {
        assert t[0] == '\\' && t[1] == ps[0].c && t[2..] == rest;
      } else {
        assert t[0] == ps[0].c && t[1..] == rest;
      }
    }
  }

  /** The matcher finds the literal that the text starts with, if there is one. */
  lemma LiteralIs(text: string, ps: seq<Piece>)
    requires LiteralAt(text, ps)
    ensures ConfString(text) == Some(Spelled(ps)) && Unescape(Spelled(ps)) == Denoted(ps)
  {
    var rest := text[|Spelled(ps)| + 2..];
    assert text == "\"" + Spelled(ps) + "\"" + rest;
    assert text[1..] == Spelled(ps) + "\"" + rest;
    BodyOfPieces(ps, rest);
    UnescapePieces(ps);
  }

  lemma LiteralExists(text: string) returns (ps: seq<Piece>)
    requires ConfString(text).Some?
    ensures LiteralAt(text, ps)
  {
    ps := PiecesOfBody(text[1..]);
    assert text == [text[0]] + text[1..];
  }

  /** A letter, a digit or an underscore. */
  predicate IsWordChar(c: char) {
    var code := c as int;
    65 <= code <= 90 || 97 <= code <= 122 || 48 <= code <= 57 || code == 95
  }

  /** `v` is the longest word that `text` starts with. */
  predicate WordAt(text: string, v: string) {
    v <= text && (forall c <- v :: IsWordChar(c)) && (|v| < |text| ==> !IsWordChar(text[|v|]))
  }

  lemma {:induction false} ConfKeyIs(text: string)
    ensures WordAt(text, ConfKey(text))
  {
    if text != [] && WordChar(text[0]) {
      ConfKeyIs(text[1..]);
      assert text == [text[0]] + text[1..];
    }
  }

  lemma WordOnce(text: string, v: string, v': string)
    requires WordAt(text, v) && WordAt(text, v')
    ensures v == v'
  {
    assert forall i :: 0 <= i < |v| ==> v[i] in v && v[i] == text[i];
    assert forall i :: 0 <= i < |v'| ==> v'[i] in v' && v'[i] == text[i];
  }

  // ----- Lines -----

  /** `s` is the first symbol of that name. */
  predicate Named(k: Kconfig, name: string, s: nat) {
    && s < |k.symbols| && k.symbols[s].name == name
    && forall i :: 0 <= i < s ==> k.symbols[i].name != name
  }

  lemma {:induction false} LookupFinds(k: Kconfig, name: string, i: nat)
    ensures var r := LookupFrom(k, name, i);
      && (r.Some? ==> i <= r.value && forall j :: i <= j < r.value ==> k.symbols[j].name != name)
      && (r.None? ==> forall j :: i <= j < |k.symbols| ==> k.symbols[j].name != name)
    decreases |k.symbols| - i
  {
    if i < |k.symbols| && k.symbols[i].name != name { LookupFinds(k, name, i + 1); }
  }

  lemma LookupIs(k: Kconfig, name: string, s: nat)
    ensures Named(k, name, s) <==> Lookup(k, name) == Some(s)
  {
    LookupFinds(k, name, 0);
  }

  /** The letter that the text starts with. */
  predicate StartsWith(text: string, c: char) { text != [] && text[0] == c }

  /** The line says that symbol `s` has the value `v`:
      - of a bool or tristate symbol, with the first letter of its text, or that it is not set;
        m is no value of a bool symbol
      - of a string, with a literal, whatever comes after it
      - of a key, with the word that the text starts with
      - of a number, with all of the text but the blanks at its end. */
  ghost predicate Says(k: Kconfig, line: Line, s: nat, v: UserVal) {
    && !line.Other? && Named(k, line.name, s)
    && match k.Sym(s).origType
       case BOOL => v.Level? && v.t != 1 && LevelSaid(line, v.t)
       case TRISTATE => v.Level? && LevelSaid(line, v.t)
       case STRING => v.Text? && line.Assign? && StringSaid(line.rhs, v.s)
       case KEY => v.Text? && line.Assign? && exists t :: Stripped(line.rhs, t) && WordAt(t, v.s)
       case INT => v.Text? && line.Assign? && Stripped(line.rhs, v.s) && k.num.parse(v.s, 10).Some?
       case HEX =>
         && v.Text? && line.Assign? && Stripped(line.rhs, v.s)
         && k.num.parse(v.s, 16).Some? && k.num.parse(v.s, 16).value >= 0
       case UNKNOWN => false
  }

  predicate LevelSaid(line: Line, t: Tri) {
    match line
    case NotSet(_) => t == 0
    case Assign(_, rhs) => StartsWith(rhs, if t == 0 then 'n' else if t == 1 then 'm' else 'y')
    case Other => false
  }

  ghost predicate StringSaid(rhs: string, v: string) {
    exists t, ps :: Stripped(rhs, t) && LiteralAt(t, ps) && v == Denoted(ps)
  }

  lemma StrippedStart(text: string, t: string, c: char)
    requires Stripped(text, t) && !IsBlank(c)
    ensures StartsWith(t, c) <==> StartsWith(text, c)
  {
  }

  lemma LevelSaidIs(line: Line, rhs: string, t: Tri)
    requires line.Assign? && Stripped(line.rhs, rhs)
    ensures LevelSaid(line, t) <==> FirstLevel(rhs) == Some(t)
  {
    StrippedStart(line.rhs, rhs, 'n');
    StrippedStart(line.rhs, rhs, 'm');
    StrippedStart(line.rhs, rhs, 'y');
  }

  lemma StringSaidIs(rhs: string, v: string)
    ensures StringSaid(rhs, v) <==> ConfString(RStrip(rhs)).Some? && Unescape(ConfString(RStrip(rhs)).value) == v
  {
    var text := RStrip(rhs);
    StripIs(rhs);
    if StringSaid(rhs, v) {
      var t, ps :| Stripped(rhs, t) && LiteralAt(t, ps) && v == Denoted(ps);
      StrippedOnce(rhs, t, text);
      LiteralIs(text, ps);
    }
    if ConfString(text).Some? {
      var ps := LiteralExists(text);
      LiteralIs(text, ps);
    }
  }

  lemma KeySaidIs(rhs: string, v: string)
    ensures (exists t :: Stripped(rhs, t) && WordAt(t, v)) <==> v == Unescape(ConfKey(RStrip(rhs)))
  {
    var text := RStrip(rhs);
    StripIs(rhs);
    ConfKeyIs(text);
    KeyRoundTrip(ConfKey(text));
    forall t | Stripped(rhs, t) && WordAt(t, v) ensures v == ConfKey(text) {
      StrippedOnce(rhs, t, text);
      WordOnce(text, v, ConfKey(text));
    }
    if v == ConfKey(text) { assert Stripped(rhs, text) && WordAt(text, v); }
  }

  /** What the text of an assignment says, type by type. */
  lemma RhsSays(t: Type, line: Line, v: UserVal)
    requires line.Assign?
    ensures v.Level? && BoolTristate(t) ==>
      (ParseRhs(t, line.rhs) == Some(v) <==> LevelSaid(line, v.t) && (t == BOOL ==> v.t != 1))
    ensures v.Text? && t == STRING ==> (ParseRhs(t, line.rhs) == Some(v) <==> StringSaid(line.rhs, v.s))
    ensures v.Text? && t == KEY ==>
      (ParseRhs(t, line.rhs) == Some(v) <==> exists x :: Stripped(line.rhs, x) && WordAt(x, v.s))
    ensures v.Text? && t in {INT, HEX, UNKNOWN} ==> (ParseRhs(t, line.rhs) == Some(v) <==> Stripped(line.rhs, v.s))
  {
    StripIs(line.rhs);
    if v.Level? {
      LevelSaidIs(line, RStrip(line.rhs), v.t);
    } else {
      StringSaidIs(line.rhs, v.s);
      KeySaidIs(line.rhs, v.s);
      if Stripped(line.rhs, v.s) { StrippedOnce(line.rhs, v.s, RStrip(line.rhs)); }
    }
  }

  /** The assignment that the loader takes from a line is what the line says. */
  lemma SaysIs(k: Kconfig, line: Line, s: nat, v: UserVal)
    ensures Says(k, line, s, v) <==> Assigned(k, line) == Some(Assignment(s, v))
  {
    if !line.Other? { LookupIs(k, line.name, s); }
    if line.Assign? { RhsSays(k.Sym(s).origType, line, v); }
  }

  /** The choice takes the mode. */
  predicate TakesMode(k: Kconfig, c: nat, t: Tri) {
    k.Ch(c).origType == TRISTATE || (k.Ch(c).origType == BOOL && t != 1)
  }

  /** What a line does to the user state: the symbol gets the value that the line says; m or
      y for a choice symbol is also the mode of the choice, and y makes the symbol the user's
      selection.  A line that says nothing does nothing. */
  lemma LineMeans(k: Kconfig, u: User, line: Line)
    ensures forall s: nat, v :: Says(k, line, s, v) ==>
      var u', c := ApplyLine(k, u, line), k.Sym(s).choice;
      && u'.vals == u.vals[s := v]
      && u'.modes == (if v.Level? && v.t != 0 && c.Some? && TakesMode(k, c.value, v.t)
                      then u.modes[c.value := v.t] else u.modes)
      && u'.sels == (if v == Level(2) && c.Some? then u.sels[c.value := s] else u.sels)
    ensures (forall s: nat, v :: !Says(k, line, s, v)) ==> ApplyLine(k, u, line) == u
  {
    forall s: nat, v | Says(k, line, s, v)
      ensures var u', c := ApplyLine(k, u, line), k.Sym(s).choice;
        && u'.vals == u.vals[s := v]
        && u'.modes == (if v.Level? && v.t != 0 && c.Some? && TakesMode(k, c.value, v.t)
                        then u.modes[c.value := v.t] else u.modes)
        && u'.sels == (if v == Level(2) && c.Some? then u.sels[c.value := s] else u.sels)
    {
      SaysIs(k, line, s, v);
      AssignedNormal(k, line);
    }
    var a := Assigned(k, line);
    if a.Some? { SaysIs(k, line, a.value.s, a.value.v); }
  }

  // ----- Files -----

  /** What some line says, and no later line says anything else of that kind. */
  ghost predicate LastSaid<T(!new)>(lines: seq<Line>, says: (Line, T) -> bool, v: T) {
    exists i :: 0 <= i < |lines| && says(lines[i], v) && SilentAfter(lines, says, i)
  }

  ghost predicate SilentAfter<T(!new)>(lines: seq<Line>, says: (Line, T) -> bool, i: int) {
    forall j, x :: i < j < |lines| && 0 <= j ==> !says(lines[j], x)
  }

  ghost predicate NoneSays<T(!new)>(lines: seq<Line>, says: (Line, T) -> bool) {
    forall i :: 0 <= i < |lines| ==> Quiet(lines[i], says)
  }

  ghost predicate Quiet<T(!new)>(line: Line, says: (Line, T) -> bool) { forall x :: !says(line, x) }

  /** One more line: what it says, and otherwise what the lines before say. */
  lemma LastSaidStep<T(!new)>(lines: seq<Line>, says: (Line, T) -> bool, v: T)
    requires lines != []
    ensures var last := lines[|lines| - 1];
      && (forall x :: says(last, x) ==> (says(last, v) <==> LastSaid(lines, says, v)))
      && (Quiet(last, says) ==> (LastSaid(lines, says, v) <==> LastSaid(lines[..|lines| - 1], says, v)))
  {
    var n := |lines| - 1;
    var front := lines[..n];
    assert forall j :: 0 <= j < n ==> front[j] == lines[j];
    assert SilentAfter(lines, says, n);
    if Quiet(lines[n], says) {
      if LastSaid(front, says, v) {
        var i :| 0 <= i < n && says(front[i], v) && SilentAfter(front, says, i);
        assert SilentAfter(lines, says, i);
      }
      if LastSaid(lines, says, v) {
        var i :| 0 <= i < |lines| && says(lines[i], v) && SilentAfter(lines, says, i);
        assert SilentAfter(front, says, i) && says(front[i], v);
      }
    }
  }

  ghost function ValueSaid(k: Kconfig, s: nat): (Line, UserVal) -> bool { (l: Line, v: UserVal) => Says(k, l, s, v) }

  /** A choice symbol gets m or y, which is a mode of the choice. */
  ghost function ModeSaid(k: Kconfig, c: nat): (Line, Tri) -> bool {
    (l: Line, t: Tri) =>
      t != 0 && TakesMode(k, c, t) && exists s: nat :: Says(k, l, s, Level(t)) && k.Sym(s).choice == Some(c)
  }

  ghost function SelectionSaid(k: Kconfig, c: nat): (Line, nat) -> bool {
    (l: Line, s: nat) => Says(k, l, s, Level(2)) && k.Sym(s).choice == Some(c)
  }

  lemma NoneSaysStep<T(!new)>(lines: seq<Line>, says: (Line, T) -> bool)
    requires lines != []
    ensures NoneSays(lines, says) <==>
      NoneSays(lines[..|lines| - 1], says) && Quiet(lines[|lines| - 1], says)
  {
    assert forall i :: 0 <= i < |lines| - 1 ==> lines[i] == lines[..|lines| - 1][i];
  }

  function LastEntry<T>(lines: seq<Line>, entry: Line -> Option<T>): Option<T> {
    if lines == [] then None else OrElse(entry(lines[|lines| - 1]), LastEntry(lines[..|lines| - 1], entry))
  }

  lemma {:induction false} LastEntryIs<T(!new)>(lines: seq<Line>, says: (Line, T) -> bool, entry: Line -> Option<T>)
    requires forall l, v :: says(l, v) <==> entry(l) == Some(v)
    ensures forall v :: LastEntry(lines, entry) == Some(v) <==> LastSaid(lines, says, v)
    ensures LastEntry(lines, entry).None? <==> NoneSays(lines, says)
  {
    if lines != [] {
      LastEntryIs(lines[..|lines| - 1], says, entry);
      NoneSaysStep(lines, says);
      forall v { LastSaidStep(lines, says, v); }
    }
  }

  // What one line says of each kind, as a function of the assignment taken from it.

  function ValueEntry(k: Kconfig, x: nat): Line -> Option<UserVal> {
    (l: Line) =>
      var a := Assigned(k, l);
      if a.Some? && a.value.s == x then Some(a.value.v) else None
  }

  function ModeEntry(k: Kconfig, x: nat): Line -> Option<Tri> {
    (l: Line) =>
      var a := Assigned(k, l);
      if a.Some? && ModeSet(k, a.value) == Some(x) && ModeAcceptable(k, x, a.value.v.t) then Some(a.value.v.t) else None
  }

  function SelectionEntry(k: Kconfig, x: nat): Line -> Option<nat> {
    (l: Line) =>
      var a := Assigned(k, l);
      if a.Some? && a.value.v == Level(2) && k.Sym(a.value.s).choice == Some(x) then Some(a.value.s) else None
  }

  lemma ValueLine(k: Kconfig, x: nat)
    ensures forall l, v :: ValueSaid(k, x)(l, v) <==> ValueEntry(k, x)(l) == Some(v)
  {
    forall l, v { SaysIs(k, l, x, v); }
  }

  lemma ModeLine(k: Kconfig, x: nat)
    ensures forall l, t: Tri :: ModeSaid(k, x)(l, t) <==> ModeEntry(k, x)(l) == Some(t)
  {
    forall l, s, v { SaysIs(k, l, s, v); }
  }

  lemma SelectionLine(k: Kconfig, x: nat)
    ensures forall l, s: nat :: SelectionSaid(k, x)(l, s) <==> SelectionEntry(k, x)(l) == Some(s)
  {
    forall l, s, v { SaysIs(k, l, s, v); }
  }

  lemma {:induction false} LastFold(k: Kconfig, lines: seq<Line>, x: nat)
    ensures LastVal(k, lines, x) == LastEntry(lines, ValueEntry(k, x))
    ensures LastMode(k, lines, x) == LastEntry(lines, ModeEntry(k, x))
    ensures LastSel(k, lines, x) == LastEntry(lines, SelectionEntry(k, x))
  {
    if lines != [] { LastFold(k, lines[..|lines| - 1], x); }
  }

  /** After a replacing load a symbol has a user value if and only if some line says one, and
      then it is what the last such line says; likewise the modes that the lines of its symbols
      give to a choice.  Its selection is the symbol last said to be y, unless no line says y
      and some line gives it a mode: then the selection stays as it was. */
  lemma FileMeans(k: Kconfig, lines: seq<Line>, u0: User, u: User, x: nat)
    requires Replaced(k, lines, u0, u)
    ensures forall v :: Get(u.vals, x) == Some(v) <==> LastSaid(lines, ValueSaid(k, x), v)
    ensures forall t: Tri :: Get(u.modes, x) == Some(t) <==> LastSaid(lines, ModeSaid(k, x), t)
    ensures NoneSays(lines, SelectionSaid(k, x)) && !NoneSays(lines, ModeSaid(k, x)) ==>
      Get(u.sels, x) == Get(u0.sels, x)
    ensures !NoneSays(lines, SelectionSaid(k, x)) || NoneSays(lines, ModeSaid(k, x)) ==>
      forall s: nat :: Get(u.sels, x) == Some(s) <==> LastSaid(lines, SelectionSaid(k, x), s)
  {
    ValueLine(k, x);
    ModeLine(k, x);
    SelectionLine(k, x);
    LastFold(k, lines, x);
    LastEntryIs(lines, ValueSaid(k, x), ValueEntry(k, x));
    LastEntryIs<Tri>(lines, ModeSaid(k, x), ModeEntry(k, x));
    LastEntryIs<nat>(lines, SelectionSaid(k, x), SelectionEntry(k, x));
  }
}

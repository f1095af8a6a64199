/** The .config writers over the memoising evaluator, and the trip there and back. */
module ConfigWriter {
  import opened Model
  import opened Evaluation
  import opened Engine
  import opened ConfigFile
  import opened RoundTrip

  /** Symbol.config_string */
  method ConfigString(kc: Kconf, s: nat) returns (l: Option<Line>)
    requires kc.Valid()
    modifies kc`cache
    ensures kc.Valid() && l == FullLine(kc.k, kc.Now())(s)
  {
    var v := kc.StrValue(s);
    l := ConfigLine(kc.k, s, v);
  }

  /** What the walk over the menu tree meets: the nodes, and the ends of menus. */
  datatype Event =
    | SymbolAt(s: nat) | MenuAt(dep: Expr, visibility: Expr) | CommentAt(dep: Expr)
    | MenuEnd(dep: Expr, visibility: Expr) | OtherAt

  /** The symbols on the way, each where it is met first. */
  function FirstSyms(walk: seq<Event>): seq<nat> {
    if walk == [] then []
    else
      var before, last := FirstSyms(walk[..|walk| - 1]), walk[|walk| - 1];
      before + if last.SymbolAt? && last.s !in before then [last.s] else []
  }

  /** The lines of the symbols in this order. */
  function LinesInOrder(f: nat -> Option<Line>, order: seq<nat>): seq<Line> {
    if order == [] then [] else LinesInOrder(f, order[..|order| - 1]) + OptLine(f(order[|order| - 1]))
  }

  lemma {:induction false} TableOrder(f: nat -> Option<Line>, order: seq<nat>)
    requires forall i :: 0 <= i < |order| ==> order[i] == i
    ensures LinesInOrder(f, order) == Lines(f, |order|)
  {
    if order != [] { TableOrder(f, order[..|order| - 1]); }
  }

  /** The file without comments and blank lines. */
  function Settings(lines: seq<Line>): seq<Line> {
    if lines == [] then []
    else
      var last := lines[|lines| - 1];
      Settings(lines[..|lines| - 1]) + if last.Other? then [] else [last]
  }

  lemma {:induction false} SettingsConcat(a: seq<Line>, b: seq<Line>)
    ensures Settings(a + b) == Settings(a) + Settings(b)
  {
    if b == [] {
      assert a + b == a;
    } else {
      assert (a + b)[..|a + b| - 1] == a + b[..|b| - 1];
      SettingsConcat(a, b[..|b| - 1]);
    }
  }

  lemma {:induction false} SettingsSet(k: Kconfig, lines: seq<Line>, x: nat)
    ensures LastVal(k, Settings(lines), x) == LastVal(k, lines, x)
    ensures LastMode(k, Settings(lines), x) == LastMode(k, lines, x)
    ensures LastSel(k, Settings(lines), x) == LastSel(k, lines, x)
  {
    if lines != [] {
      var init, last := lines[..|lines| - 1], lines[|lines| - 1];
      SettingsSet(k, init, x);
      if last.Other? {
        assert Settings(lines) == Settings(init);
      } else {
        assert Settings(lines) == Settings(init) + [last];
        assert Settings(lines)[..|Settings(init)|] == Settings(init) && Settings(lines)[|Settings(init)|] == last;
      }
    }
  }

  /** Comments and blank lines make no difference to a load. */
  lemma CommentsIgnored(k: Kconfig, lines: seq<Line>, u0: User, u: User)
    requires Replaced(k, lines, u0, u)
    ensures Replaced(k, Settings(lines), u0, u)
  {
    forall x: nat { SettingsSet(k, lines, x); }
  }

  /** Kconfig._config_contents(): symbols where the walk meets them first, titles of visible
      menus and of comments as comments, and the ends of visible menus.  Symbols are numbered
      in the order of their first definition, which is the order of the walk. */
  method WriteConfig(kc: Kconf, walk: seq<Event>) returns (lines: seq<Line>)
    requires kc.Valid()
    requires |FirstSyms(walk)| == |kc.k.symbols| && forall i :: 0 <= i < |kc.k.symbols| ==> FirstSyms(walk)[i] == i
    modifies kc`cache
    ensures kc.Valid() && Settings(lines) == FullConfig(kc.k, kc.Now())
  {
    ghost var f := FullLine(kc.k, kc.Now());
    lines := [];
    var visited, afterEnd := {}, false;
    for i := 0 to |walk|
      invariant kc.Valid() && FullLine(kc.k, kc.Now()) == f && WalkedTo(f, walk[..i], visited, lines)
    {
      var more;
      more, afterEnd := EventLines(kc, walk[i], visited, afterEnd);
      WalkGrows(f, walk[..i], walk[i], visited, lines, more);
      assert walk[..i] + [walk[i]] == walk[..i + 1];
      if walk[i].SymbolAt? { visited := visited + {walk[i].s}; }
      lines := lines + more;
    }
    assert walk[..|walk|] == walk;
    TableOrder(f, FirstSyms(walk));
  }

  ghost predicate WalkedTo(f: nat -> Option<Line>, walk: seq<Event>, visited: set<nat>, lines: seq<Line>) {
    Settings(lines) == LinesInOrder(f, FirstSyms(walk)) && forall s: nat :: s in visited <==> s in FirstSyms(walk)
  }

  lemma FirstSymsGrow(walk: seq<Event>, e: Event)
    ensures FirstSyms(walk + [e]) ==
      if e.SymbolAt? && e.s !in FirstSyms(walk) then FirstSyms(walk) + [e.s] else FirstSyms(walk)
  {
    assert (walk + [e])[..|walk|] == walk;
  }

  lemma WalkGrows(f: nat -> Option<Line>, walk: seq<Event>, e: Event, visited: set<nat>,
                  lines: seq<Line>, more: seq<Line>)
    requires WalkedTo(f, walk, visited, lines)
    requires Settings(more) == if e.SymbolAt? && e.s !in visited then OptLine(f(e.s)) else []
    ensures WalkedTo(f, walk + [e], if e.SymbolAt? then visited + {e.s} else visited, lines + more)
  {
    SettingsConcat(lines, more);
    FirstSymsGrow(walk, e);
    if e.SymbolAt? && e.s !in visited { OrderGrows(f, FirstSyms(walk), e.s); }
  }

  /** What is written for one event. */
  method EventLines(kc: Kconf, e: Event, visited: set<nat>, afterEnd: bool) returns (lines: seq<Line>, afterEnd': bool)
    requires kc.Valid()
    modifies kc`cache
    ensures kc.Valid()
    ensures Settings(lines) ==
      if e.SymbolAt? && e.s !in visited then OptLine(FullLine(kc.k, kc.Now())(e.s)) else []
  {
    if !e.SymbolAt? {
      lines, afterEnd' := Comments(kc, e, afterEnd);
    } else if e.s in visited {
      lines, afterEnd' := [], afterEnd;
    } else {
      lines, afterEnd' := SymbolLines(kc, e.s, afterEnd);
    }
  }

  /** The line of a symbol, after a blank line if it is the first one after a menu. */
  method SymbolLines(kc: Kconf, s: nat, afterEnd: bool) returns (lines: seq<Line>, afterEnd': bool)
    requires kc.Valid()
    modifies kc`cache
    ensures kc.Valid() && Settings(lines) == OptLine(FullLine(kc.k, kc.Now())(s))
  {
    var l := ConfigString(kc, s);
    assert l == ConfigLine(kc.k, s, kc.Now().str(s));
    OneSetting(l);
    lines := if l.Some? && afterEnd then [Other] + OptLine(l) else OptLine(l);
    afterEnd' := afterEnd && l.None?;
  }

  lemma OrderGrows(f: nat -> Option<Line>, order: seq<nat>, s: nat)
    ensures LinesInOrder(f, order + [s]) == LinesInOrder(f, order) + OptLine(f(s))
  {
    assert (order + [s])[..|order|] == order;
  }

  lemma OneSetting(l: Option<Line>)
    requires l.Some? ==> !l.value.Other?
    ensures Settings(OptLine(l)) == OptLine(l) && (l.Some? ==> Settings([Other] + OptLine(l)) == OptLine(l))
  {
    if l.Some? {
      assert [l.value][..0] == [] && [Other][..0] == [];
      SettingsConcat([Other], [l.value]);
    }
  }

  /** The comment lines for a node that is not a symbol. */
  method Comments(kc: Kconf, e: Event, afterEnd: bool) returns (lines: seq<Line>, afterEnd': bool)
    requires kc.Valid() && !e.SymbolAt?
    modifies kc`cache
    ensures kc.Valid() && Settings(lines) == []
  {
    lines, afterEnd' := [], afterEnd;
    if e.OtherAt? {
      return;
    }
    var on := kc.EvalExpr(e.dep);
    if on != 0 && !e.CommentAt? {
      on := kc.EvalExpr(e.visibility);
    }
    if on != 0 {
      lines, afterEnd' := if e.MenuEnd? then [Other] else [Other, Other, Other, Other], e.MenuEnd?;
    }
    OnlyComments(lines);
  }

  lemma {:induction false} OnlyComments(lines: seq<Line>)
    requires forall i :: 0 <= i < |lines| ==> lines[i] == Other
    ensures Settings(lines) == []
  {
    if lines != [] { OnlyComments(lines[..|lines| - 1]); }
  }

  /** Symbol._str_default() */
  method StrDefaultOf(kc: Kconf, s: nat) returns (v: string)
    requires kc.Valid()
    modifies kc`cache
    ensures kc.Valid() && v == StrDefault(kc.k, kc.user, s, kc.Now())
  {
    var d := kc.k.Sym(s);
    if BoolTristate(d.origType) {
      if d.choice.Some? { return "n"; }
      var dflt := kc.DefaultLevel(s);
      var rev := kc.EvalExpr(d.revDep);
      var weak := kc.EvalExpr(d.weakRevDep);
      var t := Max(rev, Max(weak, dflt));
      if t == 1 {
        var ty := kc.CurrentType(s);
        if ty == BOOL { t := 2; }
      }
      v := TriStr(t);
    } else if d.origType != UNKNOWN {
      var dflt := kc.DefaultString(s);
      v := if dflt.Some? then dflt.value else "";
    } else {
      v := "";
    }
  }

  /** The tests of _min_config_contents() */
  method MinKeepsOf(kc: Kconf, s: nat) returns (b: bool)
    requires kc.Valid()
    modifies kc`cache
    ensures kc.Valid() && b == MinKeeps(kc.k, kc.user, s, kc.Now())
  {
    var d := kc.k.Sym(s);
    if d.choice.None? {
      var vis := kc.Visibility(s);
      var rev := kc.EvalExpr(d.revDep);
      if vis <= rev { return false; }
    }
    var val := kc.StrValue(s);
    var dflt := StrDefaultOf(kc, s);
    if val.val == dflt { return false; }
    if d.choice.Some? && !kc.k.Ch(d.choice.value).isOptional {
      var sel := kc.SelectionByDefault(d.choice.value);
      if sel == Some(s) && d.origType == BOOL {
        var tri := kc.TriValue(s);
        if tri.val == 2 { return false; }
      }
    }
    b := true;
  }

  method MinConfigString(kc: Kconf, s: nat) returns (l: Option<Line>)
    requires kc.Valid()
    modifies kc`cache
    ensures kc.Valid() && l == MinLine(kc.k, kc.user, kc.Now())(s)
  {
    l := None;
    var keep := MinKeepsOf(kc, s);
    if keep {
      l := ConfigString(kc, s);
    }
  }

  method WriteMinConfig(kc: Kconf) returns (lines: seq<Line>)
    requires kc.Valid()
    modifies kc`cache
    ensures kc.Valid() && lines == MinConfig(kc.k, kc.user, kc.Now())
  {
    lines := MinLines(kc, MinLine(kc.k, kc.user, kc.Now()), |kc.k.symbols|);
  }

  method MinLines(kc: Kconf, ghost f: nat -> Option<Line>, n: nat) returns (lines: seq<Line>)
    requires kc.Valid() && f == MinLine(kc.k, kc.user, kc.Now())
    modifies kc`cache
    ensures kc.Valid() && lines == Lines(f, n)
  {
    lines := [];
    for s := 0 to n
      invariant kc.Valid() && lines == Lines(f, s)
    {
      var l := MinConfigString(kc, s);
      lines := lines + OptLine(l);
    }
  }

  /** Nothing is lost in a file of that kind. */
  ghost predicate Kept(k: Kconfig, u: User, w: World, minimal: bool) {
    if minimal then
      (forall s: nat :: !MinLossy(k, u, w, s)) && (forall c: nat :: !ModeLost(k, u, w, MinLine(k, u, w), c))
    else
      (forall s: nat :: !Lossy(k, u, w, s)) && (forall c: nat :: !ModeLost(k, u, w, FullLine(k, w), c))
  }

  /** Writing a file from one engine and loading it into another one of the same
      configuration, whatever that one's user state and caches were. */
  method SaveAndReload(from: Kconf, into: Kconf, walk: seq<Event>, minimal: bool)
    requires from != into && from.Valid() && into.Valid() && from.k == into.k
    requires Savable(from.k, from.user, from.Now()) && (minimal ==> Minimizable(from.k))
    requires |FirstSyms(walk)| == |from.k.symbols| && forall i :: 0 <= i < |from.k.symbols| ==> FirstSyms(walk)[i] == i
    modifies from`cache, into`user, into`cache, into`symsSet, into`choicesSet
    ensures from.Valid() && into.Valid()
    ensures SameState(from.k, from.user, into.user) <==>
      Kept(from.k, from.user, from.Now(), minimal)
  {
    var lines;
    if minimal {
      lines := WriteMinConfig(from);
    } else {
      lines := WriteConfig(from, walk);
    }
    ghost var u0 := into.user;
    LoadConfig(into, lines, true);
    if minimal {
      MinConfigRoundTrip(from.k, from.rk, from.user, u0, into.user);
    } else {
      CommentsIgnored(from.k, lines, u0, into.user);
      FullConfigRoundTrip(from.k, from.rk, from.user, u0, into.user);
    }
  }
}

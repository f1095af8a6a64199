/**
  The search for dependency loops with choices.  The marks are passed along and returned
  instead of being updated in place.
 */
module ChoiceLoop {
  import opened Model
  import opened Evaluation
  import opened Dependencies

  /** `deps[s]` are the `_dependents` of symbol `s` before the choices' own edges are added;
      `choiceOf` and `members` say which symbols are in which choice. */
  datatype Graph = Graph(deps: seq<seq<Item>>, choiceOf: seq<Option<nat>>, members: seq<seq<nat>>)
  {
    predicate Has(x: Item) { match x case S(s) => s < |deps| case C(c) => c < |members| }

    predicate Ok() {
      && |choiceOf| == |deps|
      && (forall s, i :: 0 <= s < |deps| && 0 <= i < |deps[s]| ==> Has(deps[s][i]))
      && (forall s :: 0 <= s < |choiceOf| && choiceOf[s].Some? ==> choiceOf[s].value < |members|)
      && (forall c, i :: 0 <= c < |members| && 0 <= i < |members[c]| ==> members[c][i] < |deps|)
    }
  }

  /** `_visited`: unvisited items are not in the map; true is "in progress", false "done". */
  type Marks = map<Item, bool>

  datatype Outcome = Nothing | Part(loop: seq<Item>) | Raised(loop: seq<Item>)

  datatype Result = Result(out: Outcome, marks: Marks)

  ghost function Unvisited(g: Graph, m: Marks): set<Item> {
    (set s | 0 <= s < |g.deps| && S(s) !in m :: S(s)) + set c | 0 <= c < |g.members| && C(c) !in m :: C(c)
  }

  /** _found_dep_loop() */
  function Found(out: Outcome, cur: Item): Outcome
    requires out.Part? ==> out.loop != []
  {
    match out
    case Part(loop) => if cur != loop[0] then Part(loop + [cur]) else Raised(loop)
    case _ => out
  }

  ghost predicate Goes(g: Graph, m: Marks, r: Result) {
    m.Keys <= r.marks.Keys && (r.out.Part? ==> r.out.loop != [])
  }

  /** _check_dep_loop_sym() */
  function CheckSym(g: Graph, m: Marks, s: nat, ignoreChoice: bool): (r: Result)
    requires g.Ok() && s < |g.deps|
    ensures Goes(g, m, r)
    decreases Unvisited(g, m), 0, 0
  {
    if S(s) !in m then
      assert S(s) in Unvisited(g, m);
      var r := CheckDeps(g, m[S(s) := true], s, 0);
      if r.out != Nothing then r
      else if g.choiceOf[s].Some? && !ignoreChoice then
        var r' := CheckChoice(g, r.marks, g.choiceOf[s].value, Some(s));
        if r'.out != Nothing then Result(Found(r'.out, S(s)), r'.marks) else Result(Nothing, r'.marks[S(s) := false])
      else Result(Nothing, r.marks[S(s) := false])
    else if !m[S(s)] then Result(Nothing, m)
    else Result(Part([S(s)]), m)
  }

  /** The loop over the dependents of `s`, from number `i` on. */
  function CheckDeps(g: Graph, m: Marks, s: nat, i: nat): (r: Result)
    requires g.Ok() && s < |g.deps| && i <= |g.deps[s]|
    ensures Goes(g, m, r)
    decreases Unvisited(g, m), 1, |g.deps[s]| - i
  {
    if i == |g.deps[s]| then Result(Nothing, m)
    else
      var x := g.deps[s][i];
      var r := if x.C? then CheckChoice(g, m, x.c, None) else CheckSym(g, m, x.s, false);
      if r.out != Nothing then Result(Found(r.out, S(s)), r.marks)
      else
        assert Unvisited(g, r.marks) <= Unvisited(g, m);
        CheckDeps(g, r.marks, s, i + 1)
  }

  /** _check_dep_loop_choice() */
  function CheckChoice(g: Graph, m: Marks, c: nat, skip: Option<nat>): (r: Result)
    requires g.Ok() && c < |g.members|
    ensures Goes(g, m, r)
    decreases Unvisited(g, m), 0, 0
  {
    if C(c) !in m then
      assert C(c) in Unvisited(g, m);
      var r := CheckMembers(g, m[C(c) := true], c, skip, 0);
      if r.out != Nothing then r else Result(Nothing, r.marks[C(c) := false])
    else if !m[C(c)] then Result(Nothing, m)
    else Result(Part([C(c)]), m)
  }

  function CheckMembers(g: Graph, m: Marks, c: nat, skip: Option<nat>, i: nat): (r: Result)
    requires g.Ok() && c < |g.members| && i <= |g.members[c]|
    ensures Goes(g, m, r)
    decreases Unvisited(g, m), 1, |g.members[c]| - i
  {
    if i == |g.members[c]| then Result(Nothing, m)
    else
      var s := g.members[c][i];
      var r := if skip == Some(s) then Result(Nothing, m) else CheckSym(g, m, s, true);
      if r.out != Nothing then Result(Found(r.out, C(c)), r.marks)
      else
        assert Unvisited(g, r.marks) <= Unvisited(g, m);
        CheckMembers(g, r.marks, c, skip, i + 1)
  }

  /** The check over all symbols, from number `s` on: the loop that is raised, if any. */
  function CheckFrom(g: Graph, m: Marks, s: nat): Option<seq<Item>>
    requires g.Ok() && s <= |g.deps|
    decreases |g.deps| - s
  {
    if s == |g.deps| then None
    else
      var r := CheckSym(g, m, s, false);
      match r.out
      case Raised(loop) => Some(loop)
      case _ => CheckFrom(g, r.marks, s + 1)
  }

  // ----- What is raised is a genuine loop -----

  /** `a` is in the `_dependents` of `b`. */
  predicate DepEdge(g: Graph, a: Item, b: Item) { b.S? && b.s < |g.deps| && a in g.deps[b.s] }

  /** A choice depends on its symbols, and they on their choice. */
  predicate OwnEdge(g: Graph, a: Item, b: Item) {
    || (b.S? && a.C? && b.s < |g.choiceOf| && g.choiceOf[b.s] == Some(a.c))
    || (b.C? && a.S? && b.c < |g.members| && a.s in g.members[b.c])
  }

  predicate Edge(g: Graph, a: Item, b: Item) { DepEdge(g, a, b) || OwnEdge(g, a, b) }

  /** Different items, each of which depends on the next one. */
  ghost predicate Chain(g: Graph, p: seq<Item>) {
    (forall i :: 0 <= i < |p| - 1 ==> Edge(g, p[i], p[i + 1])) && forall i, j :: 0 <= i < j < |p| ==> p[i] != p[j]
  }

  /** A loop that is more than a symbol and its own choice. */
  ghost predicate Genuine(g: Graph, p: seq<Item>) {
    && p != [] && Chain(g, p) && Edge(g, p[|p| - 1], p[0])
    && (|p| == 2 ==> DepEdge(g, p[0], p[1]) || DepEdge(g, p[1], p[0]))
  }

  /** What a call keeps: earlier marks stay, and if nothing is found all new ones are "done". */
  ghost predicate Kept(m: Marks, r: Result) {
    && (forall x :: x in m ==> x in r.marks && r.marks[x] == m[x])
    && (r.out.Nothing? ==> forall x :: x in r.marks && x !in m ==> !r.marks[x])
  }

  /** The part of a loop that a call for `x` returns: from an item in progress to `x`, with
      items that the call has visited in between. */
  ghost predicate PartOf(g: Graph, m: Marks, p: seq<Item>, x: Item) {
    && p != [] && Chain(g, p) && p[|p| - 1] == x && p[0] in m && m[p[0]]
    && forall i :: 1 <= i < |p| ==> p[i] !in m
  }

  /** The part of a loop in the loops of `x` itself, which is in progress. */
  ghost predicate PartIn(g: Graph, m: Marks, p: seq<Item>, x: Item) {
    && |p| >= 2 && Chain(g, p) && p[|p| - 1] == x && p[0] in m && m[p[0]] && p[0] != x
    && forall i :: 1 <= i < |p| - 1 ==> p[i] !in m
  }

  lemma FoundSound(g: Graph, m: Marks, out: Outcome, x: Item, cur: Item)
    requires cur in m && Edge(g, x, cur) && (out.Part? ==> PartOf(g, m, out.loop, x))
    requires out.Part? && out.loop[0] == cur && |out.loop| == 2 ==> DepEdge(g, x, cur) || DepEdge(g, cur, x)
    requires out.Raised? ==> Genuine(g, out.loop)
    ensures var r := Found(out, cur);
      && (r.Part? ==> PartIn(g, m, r.loop, cur) && r.loop == out.loop + [cur])
      && (r.Raised? ==> Genuine(g, r.loop)) && (r.Nothing? <==> out.Nothing?)
  {
  }

  lemma {:induction false} SymSound(g: Graph, m: Marks, s: nat, ignoreChoice: bool)
    requires g.Ok() && s < |g.deps|
    ensures var r := CheckSym(g, m, s, ignoreChoice);
      && Kept(m, r) && (r.out.Part? ==> PartOf(g, m, r.out.loop, S(s))) && (r.out.Raised? ==> Genuine(g, r.out.loop))
      && (r.out.Part? && |r.out.loop| == 2 && ignoreChoice ==> DepEdge(g, r.out.loop[0], S(s)))
    decreases Unvisited(g, m), 0, 0
  {
    if S(s) !in m {
      assert S(s) in Unvisited(g, m);
      var m1 := m[S(s) := true];
      DepsSound(g, m1, s, 0);
      var r := CheckDeps(g, m1, s, 0);
      if r.out == Nothing && g.choiceOf[s].Some? && !ignoreChoice {
        var c := g.choiceOf[s].value;
        assert Unvisited(g, r.marks) <= Unvisited(g, m1);
        ChoiceSound(g, r.marks, c, Some(s));
        FoundSound(g, r.marks, CheckChoice(g, r.marks, c, Some(s)).out, C(c), S(s));
      }
    }
  }

  lemma {:induction false} DepsSound(g: Graph, m: Marks, s: nat, i: nat)
    requires g.Ok() && s < |g.deps| && i <= |g.deps[s]| && S(s) in m && m[S(s)]
    ensures var r := CheckDeps(g, m, s, i);
      && Kept(m, r) && (r.out.Part? ==> PartIn(g, m, r.out.loop, S(s))) && (r.out.Raised? ==> Genuine(g, r.out.loop))
      && (r.out.Part? && |r.out.loop| == 2 ==> DepEdge(g, r.out.loop[0], S(s)))
    decreases Unvisited(g, m), 1, |g.deps[s]| - i
  {
    if i < |g.deps[s]| {
      var x := g.deps[s][i];
      if x.C? { ChoiceSound(g, m, x.c, None); } else { SymSound(g, m, x.s, false); }
      var r := if x.C? then CheckChoice(g, m, x.c, None) else CheckSym(g, m, x.s, false);
      FoundSound(g, m, r.out, x, S(s));
      if r.out == Nothing {
        assert Unvisited(g, r.marks) <= Unvisited(g, m);
        DepsSound(g, r.marks, s, i + 1);
      }
    }
  }

  lemma {:induction false} ChoiceSound(g: Graph, m: Marks, c: nat, skip: Option<nat>)
    requires g.Ok() && c < |g.members|
    ensures var r := CheckChoice(g, m, c, skip);
      && Kept(m, r) && (r.out.Part? ==> PartOf(g, m, r.out.loop, C(c))) && (r.out.Raised? ==> Genuine(g, r.out.loop))
      && (r.out.Part? && |r.out.loop| == 2 && skip.Some? ==> r.out.loop[0] != S(skip.value))
    decreases Unvisited(g, m), 0, 0
  {
    if C(c) !in m {
      assert C(c) in Unvisited(g, m);
      MembersSound(g, m[C(c) := true], c, skip, 0);
    }
  }

  lemma {:induction false} MembersSound(g: Graph, m: Marks, c: nat, skip: Option<nat>, i: nat)
    requires g.Ok() && c < |g.members| && i <= |g.members[c]| && C(c) in m && m[C(c)]
    ensures var r := CheckMembers(g, m, c, skip, i);
      && Kept(m, r) && (r.out.Part? ==> PartIn(g, m, r.out.loop, C(c))) && (r.out.Raised? ==> Genuine(g, r.out.loop))
      && (r.out.Part? && |r.out.loop| == 2 && skip.Some? ==> r.out.loop[0] != S(skip.value))
    decreases Unvisited(g, m), 1, |g.members[c]| - i
  {
    if i < |g.members[c]| {
      var s := g.members[c][i];
      if skip == Some(s) {
        MembersSound(g, m, c, skip, i + 1);
      } else {
        SymSound(g, m, s, true);
        var r := CheckSym(g, m, s, true);
        FoundSound(g, m, r.out, S(s), C(c));
        if r.out == Nothing {
          assert Unvisited(g, r.marks) <= Unvisited(g, m);
          MembersSound(g, r.marks, c, skip, i + 1);
        }
      }
    }
  }

  /** Whatever the check over all symbols raises is a genuine loop of different items. */
  lemma {:induction false} RaisedIsGenuine(g: Graph, m: Marks, s: nat)
    requires g.Ok() && s <= |g.deps| && forall x :: x in m ==> !m[x]
    ensures CheckFrom(g, m, s).Some? ==> Genuine(g, CheckFrom(g, m, s).value)
    decreases |g.deps| - s
  {
    if s < |g.deps| {
      SymSound(g, m, s, false);
      var r := CheckSym(g, m, s, false);
      if r.out.Nothing? { RaisedIsGenuine(g, r.marks, s + 1); }
    }
  }

  // ----- Loops of dependencies alone are not missed -----

  /** Items that are done have dependents that are done, and `rank` goes down to them. */
  ghost predicate Ranked(g: Graph, m: Marks, rank: Item -> nat) {
    forall s: nat, x :: s < |g.deps| && S(s) in m && !m[S(s)] && x in g.deps[s] ==>
      x in m && !m[x] && rank(x) < rank(S(s))
  }

  ghost function Top(rank: Item -> nat, xs: set<Item>): (n: nat)
    ensures forall x :: x in xs ==> rank(x) < n
  {
    if xs == {} then 0
    else
      var x :| x in xs;
      var n := Top(rank, xs - {x});
      assert forall y :: y in xs ==> y == x || y in xs - {x};
      if rank(x) < n then n else rank(x) + 1
  }

  /** An item is done after its dependents. */
  lemma DoneRanked(g: Graph, m: Marks, rank: Item -> nat, x: Item) returns (rank': Item -> nat)
    requires Ranked(g, m, rank) && x in m && m[x]
    requires x.S? && x.s < |g.deps| ==> forall d :: d in g.deps[x.s] ==> d in m && !m[d]
    ensures Ranked(g, m[x := false], rank')
  {
    var top := Top(rank, m.Keys);
    rank' := y => if y == x then top else rank(y);
  }

  lemma StartRanked(g: Graph, m: Marks, rank: Item -> nat, x: Item)
    requires Ranked(g, m, rank) && x !in m
    ensures Ranked(g, m[x := true], rank)
  {
  }

  lemma {:induction false} SymRanked(g: Graph, m: Marks, s: nat, ignoreChoice: bool, rank: Item -> nat)
    returns (rank': Item -> nat)
    requires g.Ok() && s < |g.deps| && Ranked(g, m, rank) && CheckSym(g, m, s, ignoreChoice).out.Nothing?
    ensures var m' := CheckSym(g, m, s, ignoreChoice).marks; Ranked(g, m', rank') && S(s) in m' && !m'[S(s)]
    decreases Unvisited(g, m), 0, 0
  {
    rank' := rank;
    if S(s) !in m {
      assert S(s) in Unvisited(g, m);
      var m1 := m[S(s) := true];
      StartRanked(g, m, rank, S(s));
      rank' := DepsRanked(g, m1, s, 0, rank);
      var r := CheckDeps(g, m1, s, 0);
      DepsSound(g, m1, s, 0);
      var m2 := r.marks;
      if g.choiceOf[s].Some? && !ignoreChoice {
        var c := g.choiceOf[s].value;
        assert Unvisited(g, r.marks) <= Unvisited(g, m1);
        rank' := ChoiceRanked(g, r.marks, c, Some(s), rank');
        ChoiceSound(g, r.marks, c, Some(s));
        m2 := CheckChoice(g, r.marks, c, Some(s)).marks;
      }
      assert forall d :: d in g.deps[s] ==> d in r.marks && d in m2 && !m2[d];
      rank' := DoneRanked(g, m2, rank', S(s));
    }
  }

  lemma {:induction false} DepsRanked(g: Graph, m: Marks, s: nat, i: nat, rank: Item -> nat)
    returns (rank': Item -> nat)
    requires g.Ok() && s < |g.deps| && i <= |g.deps[s]| && S(s) in m && m[S(s)] && Ranked(g, m, rank)
    requires CheckDeps(g, m, s, i).out.Nothing?
    ensures var m' := CheckDeps(g, m, s, i).marks;
      Ranked(g, m', rank') && forall j :: i <= j < |g.deps[s]| ==> g.deps[s][j] in m' && !m'[g.deps[s][j]]
    decreases Unvisited(g, m), 1, |g.deps[s]| - i
  {
    rank' := rank;
    if i < |g.deps[s]| {
      var x := g.deps[s][i];
      if x.C? { rank' := ChoiceRanked(g, m, x.c, None, rank); } else { rank' := SymRanked(g, m, x.s, false, rank); }
      var r := if x.C? then CheckChoice(g, m, x.c, None) else CheckSym(g, m, x.s, false);
      if x.C? { ChoiceSound(g, m, x.c, None); } else { SymSound(g, m, x.s, false); }
      assert Unvisited(g, r.marks) <= Unvisited(g, m);
      rank' := DepsRanked(g, r.marks, s, i + 1, rank');
      DepsSound(g, r.marks, s, i + 1);
    }
  }

  lemma {:induction false} ChoiceRanked(g: Graph, m: Marks, c: nat, skip: Option<nat>, rank: Item -> nat)
    returns (rank': Item -> nat)
    requires g.Ok() && c < |g.members| && Ranked(g, m, rank) && CheckChoice(g, m, c, skip).out.Nothing?
    ensures var m' := CheckChoice(g, m, c, skip).marks; Ranked(g, m', rank') && C(c) in m' && !m'[C(c)]
    decreases Unvisited(g, m), 0, 0
  {
    rank' := rank;
    if C(c) !in m {
      assert C(c) in Unvisited(g, m);
      var m1 := m[C(c) := true];
      StartRanked(g, m, rank, C(c));
      rank' := MembersRanked(g, m1, c, skip, 0, rank);
      MembersSound(g, m1, c, skip, 0);
      rank' := DoneRanked(g, CheckMembers(g, m1, c, skip, 0).marks, rank', C(c));
    }
  }

  lemma {:induction false} MembersRanked(g: Graph, m: Marks, c: nat, skip: Option<nat>, i: nat, rank: Item -> nat)
    returns (rank': Item -> nat)
    requires g.Ok() && c < |g.members| && i <= |g.members[c]| && Ranked(g, m, rank)
    requires CheckMembers(g, m, c, skip, i).out.Nothing?
    ensures Ranked(g, CheckMembers(g, m, c, skip, i).marks, rank')
    decreases Unvisited(g, m), 1, |g.members[c]| - i
  {
    rank' := rank;
    if i < |g.members[c]| {
      var s := g.members[c][i];
      if skip == Some(s) {
        rank' := MembersRanked(g, m, c, skip, i + 1, rank);
      } else {
        rank' := SymRanked(g, m, s, true, rank);
        var r := CheckSym(g, m, s, true);
        assert Unvisited(g, r.marks) <= Unvisited(g, m);
        rank' := MembersRanked(g, r.marks, c, skip, i + 1, rank');
      }
    }
  }

  lemma {:induction false} FromRanked(g: Graph, m: Marks, s: nat, rank: Item -> nat) returns (rank': Item -> nat)
    requires g.Ok() && s <= |g.deps| && Ranked(g, m, rank) && CheckFrom(g, m, s).None?
    requires (forall x :: x in m ==> !m[x]) && forall x: nat :: x < s ==> S(x) in m
    ensures forall x: nat, d :: x < |g.deps| && d in g.deps[x] ==> rank'(d) < rank'(S(x))
    decreases |g.deps| - s
  {
    rank' := rank;
    if s < |g.deps| {
      SymSound(g, m, s, false);
      var r := CheckSym(g, m, s, false);
      rank' := SymRanked(g, m, s, false, rank);
      rank' := FromRanked(g, r.marks, s + 1, rank');
    }
  }

  /** Symbols each of which is in the `_dependents` of the next, and the last of the first. */
  ghost predicate DepLoop(g: Graph, p: seq<nat>) {
    && p != [] && (forall i :: 0 <= i < |p| ==> p[i] < |g.deps|)
    && (forall i :: 0 <= i < |p| - 1 ==> S(p[i]) in g.deps[p[i + 1]]) && S(p[|p| - 1]) in g.deps[p[0]]
  }

  lemma {:induction false} RankedChain(g: Graph, rank: Item -> nat, p: seq<nat>, n: nat)
    requires DepLoop(g, p) && n < |p|
    requires forall x: nat, d :: x < |g.deps| && d in g.deps[x] ==> rank(d) < rank(S(x))
    ensures rank(S(p[0])) <= rank(S(p[n]))
  {
    if n > 0 {
      RankedChain(g, rank, p, n - 1);
      assert S(p[n - 1]) in g.deps[p[n - 1 + 1]];
    }
  }

  /** The check does not miss loops of dependencies between symbols, whatever choices there are. */
  lemma DependencyLoopRaises(g: Graph, p: seq<nat>)
    requires g.Ok() && DepLoop(g, p)
    ensures CheckFrom(g, map[], 0).Some?
  {
    if CheckFrom(g, map[], 0).None? {
      var rank := FromRanked(g, map[], 0, (x: Item) => 0);
      RankedChain(g, rank, p, |p| - 1);
    }
  }

  // ----- A loop that is missed -----

  function Member(name: string, p: Expr): SymbolDef { SymbolDef(name, BOOL, [p], [], [], N, N, p, Some(0), false) }

  /** A choice with the symbols X, M and B in this order: X has `depends on n`, and M has
      `depends on B`. */
  const Missed := Kconfig(
    [Member("X", N), Member("M", And(Ref(Defined(2)), Mode(0))), Member("B", Mode(0))],
    [ChoiceDef(BOOL, [Y], [], [0, 1, 2], false)], None,
    Numerals((s: string, b: nat) => None, (i: int) => "", (i: int) => ""))

  const MissedGraph := Graph([[], [], [S(1)]], [Some(0), Some(0), Some(0)], [[0, 1, 2]])

  lemma MissedSyms(s: nat)
    ensures Missed.Sym(s) == if s < 3 then Missed.symbols[s] else NoSymbol
    ensures Missed.Ch(0) == Missed.choices[0]
  {
  }

  /** The graph is the one of the configuration: who depends on which symbol. */
  lemma MissedGraphIs(x: Item, s: nat)
    requires s < 3 && x in Items(Missed)
    ensures x in MissedGraph.deps[s] <==> S(s) in DirectDeps(Missed, x)
  {
    var k := Missed;
    if x.S? {
      MissedSyms(x.s);
      var d := k.symbols[x.s];
      assert d.prompts == [d.directDep] && d.directDep in d.prompts;
      assert ExprsItems(d.prompts) == ExprItems(d.directDep);
      assert Conds(d.defaults) == [] && DefaultValues(d.defaults) == [] && RangeConds(d.ranges) == [];
    } else {
      MissedSyms(0);
      assert k.Ch(x.c).prompts == [Y] && ExprsItems([Y]) == {} && ChoiceConds(k.Ch(x.c).defaults) == [];
    }
  }

  /** The check passes: when B is visited from the choice, M has been done already, from the
      choice too. */
  lemma MissedPasses()
    ensures MissedGraph.Ok() && CheckFrom(MissedGraph, map[], 0) == None
  {
    var g := MissedGraph;
    var m2 := map[S(0) := true, C(0) := true];
    var m4 := m2[S(1) := false];
    MMember(m2);
    BMember(m4);
    assert CheckMembers(g, m4[S(2) := false], 0, Some(0), 3) == Result(Nothing, m4[S(2) := false]);
    assert CheckMembers(g, m2, 0, Some(0), 2 - 1) == Result(Nothing, m4[S(2) := false]);
    var m1 := map[S(0) := true];
    assert m1[C(0) := true] == m2 && CheckMembers(g, m2, 0, Some(0), 0) == Result(Nothing, m4[S(2) := false]);
    var m5 := m4[S(2) := false][C(0) := false];
    assert CheckChoice(g, m1, 0, Some(0)) == Result(Nothing, m5);
    assert CheckDeps(g, m1, 0, 0) == Result(Nothing, m1);
    assert CheckSym(g, map[], 0, false) == Result(Nothing, m5[S(0) := false]);
    assert CheckFrom(g, m5[S(0) := false], 1) == None;
  }

  lemma MMember(m: Marks)
    requires S(1) !in m
    ensures MissedGraph.Ok() && CheckSym(MissedGraph, m, 1, true) == Result(Nothing, m[S(1) := false])
  {
    assert CheckDeps(MissedGraph, m[S(1) := true], 1, 0) == Result(Nothing, m[S(1) := true]);
    assert m[S(1) := true][S(1) := false] == m[S(1) := false];
  }

  lemma BMember(m: Marks)
    requires S(2) !in m && S(1) in m && !m[S(1)]
    ensures MissedGraph.Ok() && CheckSym(MissedGraph, m, 2, true) == Result(Nothing, m[S(2) := false])
  {
    var m' := m[S(2) := true];
    assert CheckSym(MissedGraph, m', 1, false) == Result(Nothing, m');
    assert CheckDeps(MissedGraph, m', 2, 1) == Result(Nothing, m');
    assert CheckDeps(MissedGraph, m', 2, 0) == Result(Nothing, m');
    assert m'[S(2) := false] == m[S(2) := false];
  }

  /** The equations of the choice and its symbols, one after the other. */
  lemma MissedSteps(w: World)
    ensures var k, u := Missed, NoUser;
      && CVisStep(k, u, 0, w) == 2
      && (w.cvis(0) == 2 ==>
            VisStep(k, u, 0, w) == 0 && VisStep(k, u, 2, w) == 2 && (VisStep(k, u, 1, w) != 0 <==> w.tri(2).val != 0))
      && (w.cvis(0) == 2 && w.vis(0) == 0 && w.vis(2) == 2 ==>
            SelStep(k, u, 0, w) == Some(if w.vis(1) != 0 then 1 else 2))
      && (w.vis(2) == 2 ==> (TriStep(k, u, 2, w).val != 0 <==> w.sel(0) == Some(2)))
  {
    var k, u := Missed, NoUser;
    MissedSyms(0);
    MissedSyms(1);
    MissedSyms(2);
    OnePrompt(k, u, Y, w);
    OnePrompt(k, u, N, w);
    OnePrompt(k, u, And(Ref(Defined(2)), Mode(0)), w);
    OnePrompt(k, u, Mode(0), w);
    var syms := [0, 1, 2];
    assert syms[1..] == [1, 2] && syms[1..][1..] == [2];
    assert w.vis(2) == 2 ==> FirstVisible([2], w) == Some(2);
    assert w.vis(2) == 2 ==> FirstVisible(syms[1..], w) == Some(if w.vis(1) != 0 then 1 else 2);
  }

  lemma OnePrompt(k: Kconfig, u: User, p: Expr, w: World)
    ensures MaxVal(k, u, [p], w) == ExprVal(k, u, p, w)
  {
    assert [p][..0] == [];
  }

  lemma SolvesAt(k: Kconfig, u: User, w: World, q: Query)
    requires Readable(q)
    ensures Solves(k, u, w) ==> Look(w, q) == Step(k, u, q, w)
  {
  }

  /** Yet there are no values: M is visible exactly if B is y, which B is, as the first visible
      symbol, exactly if M is not visible. */
  lemma MissedHasNoValues(w: World)
    ensures !Solves(Missed, NoUser, w)
  {
    var k, u := Missed, NoUser;
    MissedSteps(w);
    SolvesAt(k, u, w, CVis(0));
    SolvesAt(k, u, w, Vis(0));
    SolvesAt(k, u, w, Vis(1));
    SolvesAt(k, u, w, Vis(2));
    SolvesAt(k, u, w, Sel(0));
    SolvesAt(k, u, w, TriOf(2));
  }

  lemma RankedAt(k: Kconfig, rk: Rank, q: Query, r: Query)
    requires r in Reads(k, q)
    ensures WellRanked(k, rk) ==> rk(r) < rk(q)
  {
  }

  /** So there is no rank that evaluation could go along, although nothing else is wrong. */
  lemma MissedHasNoRank(rk: Rank)
    ensures ChoicesOk(Missed) && ChoiceEdges(Missed) && !WellRanked(Missed, rk)
  {
    forall s: nat { MissedSyms(s); }
    MissedEdges();
    MissedCircle();
    RankedAt(Missed, rk, Vis(1), TriOf(2));
    RankedAt(Missed, rk, TriOf(2), Sel(0));
    RankedAt(Missed, rk, Sel(0), Vis(1));
  }

  lemma MissedCircle()
    ensures TriOf(2) in Reads(Missed, Vis(1)) && Sel(0) in Reads(Missed, TriOf(2)) && Vis(1) in Reads(Missed, Sel(0))
  {
    MissedSyms(0);
    MissedSyms(1);
    MissedSyms(2);
    var p := And(Ref(Defined(2)), Mode(0));
    assert p in Missed.Sym(1).prompts && TriOf(2) in ExprReads(Missed, p);
  }

  lemma MissedEdge(s: nat)
    requires s == 1 || s == 2
    ensures C(0) in Deps(Missed, S(s))
  {
    MissedSyms(s);
    var p := Missed.symbols[s].directDep;
    assert p in Missed.Sym(s).prompts && C(0) in ExprItems(p);
    assert C(0) in ExprsItems(Missed.Sym(s).prompts);
  }

  lemma MissedEdges()
    ensures ChoiceEdges(Missed)
  {
    forall s: nat | Missed.Sym(s).choice.Some?
      ensures C(Missed.Sym(s).choice.value) in Deps(Missed, S(s)) || NeverVisible(Missed, s)
    {
      MissedSyms(s);
      if s != 0 { MissedEdge(s); }
    }
  }
}

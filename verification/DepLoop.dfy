/**
  The search for dependency loops (choice-free): depth first over `_dependents`, with
  `_visited` 0, 1, 2 for unvisited, in progress and done.
 */
module DepLoop {
  import opened Model

  /** `g[s]` lists the symbols that depend on `s`. */
  type Graph = seq<seq<nat>>

  predicate GraphOk(g: Graph) { forall i, j :: 0 <= i < |g| && 0 <= j < |g[i]| ==> g[i][j] < |g| }

  /** Every element depends on the next one. */
  ghost predicate Chain(g: Graph, p: seq<nat>) {
    && (forall i :: 0 <= i < |p| ==> p[i] < |g|)
    && (forall i :: 0 <= i < |p| - 1 ==> p[i] in g[p[i + 1]])
  }

  /** A dependency loop: the last element depends on the first again. */
  ghost predicate Loop(g: Graph, p: seq<nat>) { p != [] && Chain(g, p) && p[|p| - 1] in g[p[0]] }

  /** `rank` goes down from a symbol to the symbols that depend on it. */
  ghost predicate Ranks(g: Graph, rank: nat -> nat) {
    forall s, d :: 0 <= s < |g| && d in g[s] ==> rank(d) < rank(s)
  }

  lemma {:induction false} ChainRanked(g: Graph, rank: nat -> nat, p: seq<nat>)
    requires GraphOk(g) && Ranks(g, rank) && Chain(g, p) && p != []
    ensures rank(p[0]) + |p| - 1 <= rank(p[|p| - 1])
  {
    if |p| > 1 {
      var q := p[..|p| - 1];
      assert forall i :: 0 <= i < |q| - 1 ==> q[i] in g[q[i + 1]] by {
        forall i | 0 <= i < |q| - 1 ensures q[i] in g[q[i + 1]] { assert p[i] in g[p[i + 1]]; }
      }
      ChainRanked(g, rank, q);
      assert p[|p| - 2] in g[p[|p| - 2 + 1]];
    }
  }

  /** A graph with a rank has no loop. */
  lemma RankedHasNoLoop(g: Graph, rank: nat -> nat, p: seq<nat>)
    requires GraphOk(g) && Ranks(g, rank)
    ensures !Loop(g, p)
  {
    if Loop(g, p) { ChainRanked(g, rank, p); }
  }

  /** What a call can do: find nothing, return the part of a loop that it knows, or raise. */
  datatype Outcome = Nothing | Part(loop: seq<nat>) | Raised(loop: seq<nat>)

  class Search {
    const g: Graph
    var visited: seq<nat>
    ghost var done: seq<nat>   // in the order in which the symbols were done

    constructor (g: Graph)
      requires GraphOk(g)
      ensures this.g == g && Valid([]) && forall s :: 0 <= s < |g| ==> visited[s] == 0
    {
      this.g := g;
      visited, done := seq(|g|, _ => 0), [];
    }

    /** `stack` holds the symbols in progress, innermost last. */
    ghost predicate Valid(stack: seq<nat>)
      reads this
    {
      && GraphOk(g) && |visited| == |g|
      && (forall s :: 0 <= s < |g| ==> visited[s] <= 2)
      && (forall s :: 0 <= s < |g| ==> (visited[s] == 1 <==> s in stack))
      && (forall s :: 0 <= s < |g| ==> (visited[s] == 2 <==> s in done))
      && (forall s :: s in stack ==> s < |g|)
      && (forall s :: s in done ==> s < |g|)
      && DoneInOrder(g, done)
    }

    ghost function Unvisited(): set<nat>
      requires |visited| == |g|
      reads this
    {
      set s | 0 <= s < |g| && visited[s] == 0
    }

    /** _check_dep_loop_sym() */
    method Check(s: nat, ghost stack: seq<nat>) returns (r: Outcome)
      requires Valid(stack) && s < |g|
      modifies this`visited, this`done
      ensures r.Nothing? ==> Valid(stack) && visited[s] == 2
      ensures r.Nothing? ==> forall x :: 0 <= x < |g| && old(visited)[x] == 2 ==> visited[x] == 2
      ensures r.Nothing? ==> Unvisited() <= old(Unvisited())
      ensures r.Part? ==> PartOf(g, r.loop, s, stack)
      ensures r.Raised? ==> Loop(g, r.loop)
      decreases Unvisited(), 1
    {
      if visited[s] == 0 {
        visited := visited[s := 1];
        assert s in old(Unvisited()) && s !in Unvisited();
        ghost var inner := stack + [s];
        for i := 0 to |g[s]|
          invariant Valid(inner) && s !in stack
          invariant Unvisited() < old(Unvisited())
          invariant forall x :: 0 <= x < |g| && old(visited)[x] == 2 ==> visited[x] == 2
          invariant forall j :: 0 <= j < i ==> visited[g[s][j]] == 2
        {
          var loop := Check(g[s][i], inner);
          if !loop.Nothing? {
            r := Found(loop, s, g[s][i], stack);
            return;
          }
        }
        FinishOrder(g, done, s);
        visited := visited[s := 2];
        done := done + [s];
        return Nothing;
      }
      if visited[s] == 2 {
        return Nothing;
      }
      r := Part([s]);
    }

    /** _found_dep_loop() */
    method Found(r: Outcome, cur: nat, ghost dep: nat, ghost stack: seq<nat>) returns (r': Outcome)
      requires cur < |g| && dep in g[cur] && !r.Nothing?
      requires r.Part? ==> PartOf(g, r.loop, dep, stack + [cur])
      requires r.Raised? ==> Loop(g, r.loop)
      ensures !r'.Nothing?
      ensures r'.Part? ==> PartOf(g, r'.loop, cur, stack)
      ensures r'.Raised? ==> Loop(g, r'.loop)
    {
      if r.Raised? { return r; }   // the exception passes through
      if cur != r.loop[0] {
        return Part(r.loop + [cur]);
      }
      r' := Raised(r.loop);
    }
  }

  /** The part of a loop known when `s` has been left: it starts with a symbol in progress
      and ends with `s`. */
  ghost predicate PartOf(g: Graph, loop: seq<nat>, s: nat, stack: seq<nat>) {
    loop != [] && Chain(g, loop) && loop[|loop| - 1] == s && loop[0] in stack
  }

  /** Symbols are done after all symbols that depend on them. */
  ghost predicate DoneInOrder(g: Graph, done: seq<nat>) {
    forall i :: 0 <= i < |done| ==> done[i] < |g| && forall d :: d in g[done[i]] ==> d in done[..i]
  }

  lemma FinishOrder(g: Graph, done: seq<nat>, s: nat)
    requires DoneInOrder(g, done) && s < |g| && forall d :: d in g[s] ==> d in done
    ensures DoneInOrder(g, done + [s])
  {
    var all := done + [s];
    forall i | 0 <= i < |all| ensures all[i] < |g| && forall d :: d in g[all[i]] ==> d in all[..i] {
      assert all[..i] == if i < |done| then done[..i] else done;
    }
  }

  /** The position of the first occurrence. */
  ghost function Index(p: seq<nat>, s: nat): (i: nat)
    ensures i <= |p| && (s in p ==> i < |p| && p[i] == s)
    ensures forall j :: 0 <= j < i ==> p[j] != s
  {
    if p == [] || p[0] == s then 0 else 1 + Index(p[1..], s)
  }

  lemma IndexInPrefix(p: seq<nat>, n: nat, s: nat)
    requires n <= |p| && s in p[..n]
    ensures Index(p, s) < n
  {
    var i :| 0 <= i < n && p[..n][i] == s;
    assert p[i] == s;
  }

  lemma DoneRanks(g: Graph, done: seq<nat>)
    requires DoneInOrder(g, done) && forall s :: 0 <= s < |g| ==> s in done
    ensures Ranks(g, (s: nat) => Index(done, s))
  {
    forall s, d | 0 <= s < |g| && d in g[s] ensures Index(done, d) < Index(done, s) {
      var i := Index(done, s);
      assert done[i] == s;
      IndexInPrefix(done, i, d);
    }
  }

  /** The check over all symbols: it raises if and only if there is a loop, what it reports
      is a loop, and when it passes there is a rank. */
  method CheckAll(g: Graph) returns (loop: Option<seq<nat>>, ghost rank: nat -> nat)
    requires GraphOk(g)
    ensures loop.Some? ==> Loop(g, loop.value)
    ensures loop.None? ==> Ranks(g, rank)
    ensures loop.None? <==> forall p :: !Loop(g, p)
  {
    rank := (s: nat) => 0;
    var search := new Search(g);
    for s := 0 to |g|
      invariant search.g == g && search.Valid([])
      invariant forall x :: 0 <= x < s ==> search.visited[x] == 2
    {
      var r := search.Check(s, []);
      if r.Raised? {
        return Some(r.loop), rank;
      }
    }
    DoneRanks(g, search.done);
    ghost var d := search.done;
    rank := (s: nat) => Index(d, s);
    forall p ensures !Loop(g, p) { RankedHasNoLoop(g, rank, p); }
    loop := None;
  }
}

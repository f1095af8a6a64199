/**
  The same on the links between nodes: the loops that rewrite the `list`, `next` and
  `parent` attributes (three maps, in which a missing key stands for None), and the walk
  over the result that uses nothing but these attributes.
 */
module MenuHeap {
  import opened Model
  import opened MenuTree
  import FinalParents

  type Links = map<MenuNode, MenuNode>

  /** Assignment to a link: None removes it. */
  function Set(m: Links, n: MenuNode, v: Option<MenuNode>): Links { if v.Some? then m[n := v.value] else m - {n} }

  // ----- How links represent trees -----

  /** The nodes from `p` on are the siblings `t`, followed by `q`. */
  ghost predicate Linked(list: Links, next: Links, p: Option<MenuNode>, t: Tree, q: Option<MenuNode>)
    decreases t
  {
    match t
    case Nil => p == q
    case Node(n, kids, rest) =>
      p == Some(n) && Linked(list, next, Get(list, n), kids, None) && Linked(list, next, Get(next, n), rest, q)
  }

  /** No node occurs twice. */
  ghost predicate Distinct(t: Tree) {
    match t
    case Nil => true
    case Node(n, kids, rest) =>
      && n !in Nodes(kids) && n !in Nodes(rest) && Nodes(kids) !! Nodes(rest)
      && Distinct(kids) && Distinct(rest)
  }

  /** The `parent` of every node is the node whose list it is in; `p` for the top level. */
  ghost predicate Parents(parent: Links, t: Tree, p: Option<MenuNode>) {
    match t
    case Nil => true
    case Node(n, kids, rest) => Get(parent, n) == p && Parents(parent, kids, Some(n)) && Parents(parent, rest, p)
  }

  /** The `parent` attribute of each of these nodes. */
  ghost predicate ParentsAre(parent: Links, s: seq<FinalParents.Placement>) {
    forall i :: 0 <= i < |s| ==> Get(parent, s[i].0) == Some(s[i].1)
  }

  lemma {:induction false} ParentsArePairs(parent: Links, t: Tree, p: MenuNode)
    requires Parents(parent, t, Some(p))
    ensures ParentsAre(parent, FinalParents.Pairs(t, p))
  {
    if t.Node? {
      ParentsArePairs(parent, t.kids, t.n);
      ParentsArePairs(parent, t.rest, p);
    }
  }

  ghost predicate Same(m: Links, m': Links, ns: set<MenuNode>) { forall n :: n in ns ==> Get(m', n) == Get(m, n) }

  /** A list of siblings starts with its first node. */
  lemma LinkedStart(list: Links, next: Links, p: Option<MenuNode>, t: Tree)
    requires Linked(list, next, p, t, None)
    ensures p == if t.Nil? then None else Some(t.n)
  {
  }

  lemma {:induction false} LinkedKept(list: Links, next: Links, list': Links, next': Links,
                                     p: Option<MenuNode>, t: Tree, q: Option<MenuNode>)
    requires Linked(list, next, p, t, q) && Same(list, list', Nodes(t)) && Same(next, next', Nodes(t))
    ensures Linked(list', next', p, t, q)
    decreases t
  {
    if t.Node? {
      LinkedKept(list, next, list', next', Get(list, t.n), t.kids, None);
      LinkedKept(list, next, list', next', Get(next, t.n), t.rest, q);
    }
  }

  lemma {:induction false} ParentsKept(parent: Links, parent': Links, t: Tree, p: Option<MenuNode>)
    requires Parents(parent, t, p) && Same(parent, parent', Nodes(t))
    ensures Parents(parent', t, p)
  {
    if t.Node? {
      ParentsKept(parent, parent', t.kids, Some(t.n));
      ParentsKept(parent, parent', t.rest, p);
    }
  }

  lemma {:induction false} LinkedAppend(list: Links, next: Links,
                                       p: Option<MenuNode>, a: Tree, q: Option<MenuNode>, b: Tree, z: Option<MenuNode>)
    requires Linked(list, next, p, a, q) && Linked(list, next, q, b, z)
    ensures Linked(list, next, p, Append(a, b), z)
    decreases a
  {
    if a.Node? { LinkedAppend(list, next, Get(next, a.n), a.rest, q, b, z); }
  }

  lemma {:induction false} AppendSplits(a: Tree, b: Tree)
    ensures Distinct(Append(a, b)) <==> Distinct(a) && Distinct(b) && Nodes(a) !! Nodes(b)
    ensures Nodes(Append(a, b)) == Nodes(a) + Nodes(b)
  {
    AppendFacts(a, b);
    if a.Node? {
      AppendSplits(a.rest, b);
    }
  }

  lemma {:induction false} ParentsAppend(parent: Links, a: Tree, b: Tree, p: Option<MenuNode>)
    ensures Parents(parent, Append(a, b), p) <==> Parents(parent, a, p) && Parents(parent, b, p)
  {
    if a.Node? { ParentsAppend(parent, a.rest, b, p); }
  }

  lemma {:induction false} AppendNested(a: Tree, n: MenuNode, k: Tree, b: Tree)
    ensures Append(Append(a, Node(n, k, Nil)), b) == Append(a, Node(n, k, b))
  {
    if a.Node? { AppendNested(a.rest, n, k, b); }
  }

  lemma {:induction false} AppendNil(a: Tree)
    ensures Append(a, Nil) == a
  {
    if a.Node? { AppendNil(a.rest); }
  }

  lemma {:induction false} RemoveIfsFacts(parent: Links, t: Tree, p: Option<MenuNode>)
    ensures Nodes(RemoveIfs(t)) <= Nodes(t)
    ensures Distinct(t) ==> Distinct(RemoveIfs(t))
    ensures Parents(parent, t, p) ==> Parents(parent, RemoveIfs(t), p)
  {
    if t.Node? { RemoveIfsFacts(parent, t.rest, p); }
  }

  /** A loop over the siblings from `p` on has passed `done` and is at `cur`, before `todo`. */
  ghost predicate Split(list: Links, next: Links, p: Option<MenuNode>, done: Tree, cur: Option<MenuNode>, todo: Tree) {
    && Linked(list, next, p, done, cur) && Linked(list, next, cur, todo, None)
    && Distinct(done) && Distinct(todo) && Nodes(done) !! Nodes(todo)
  }

  /** The loop passes one more node. */
  lemma SplitNext(list: Links, next: Links, p: Option<MenuNode>, done: Tree, cur: Option<MenuNode>, todo: Tree)
    requires Split(list, next, p, done, cur, todo) && todo.Node?
    ensures var done' := Append(done, Node(todo.n, todo.kids, Nil));
      && Split(list, next, p, done', Get(next, todo.n), todo.rest)
      && Nodes(done') + Nodes(todo.rest) == Nodes(done) + Nodes(todo)
  {
    var cell := Node(todo.n, todo.kids, Nil);
    LinkedAppend(list, next, p, done, cur, cell, Get(next, todo.n));
    AppendSplits(done, cell);
  }

  /** What is ahead of the loop is rewritten. */
  lemma SplitChange(list: Links, next: Links, list': Links, next': Links,
                    p: Option<MenuNode>, done: Tree, cur: Option<MenuNode>, todo: Tree, todo': Tree)
    requires Split(list, next, p, done, cur, todo)
    requires Unchanged(list, list', Nodes(todo)) && Unchanged(next, next', Nodes(todo))
    requires Linked(list', next', cur, todo', None) && Distinct(todo') && Nodes(todo') <= Nodes(todo)
    ensures Split(list', next', p, done, cur, todo')
  {
    LinkedKept(list, next, list', next', p, done, cur);
  }

  lemma ParentsNext(parent: Links, done: Tree, todo: Tree, par: Option<MenuNode>)
    requires todo.Node? && Parents(parent, done, par) && Parents(parent, todo, par)
    ensures Parents(parent, Append(done, Node(todo.n, todo.kids, Nil)), par) && Parents(parent, todo.rest, par)
  {
    ParentsAppend(parent, done, Node(todo.n, todo.kids, Nil), par);
  }

  /** `taken` are the siblings after `node`, of which `cur` is the last (or `node` itself). */
  ghost predicate ChainOf(list: Links, next: Links,
                          node: MenuNode, cur: MenuNode, taken: Tree, before: Tree, curKids: Tree) {
    if cur == node then taken.Nil?
    else
      && taken == Append(before, Node(cur, curKids, Nil))
      && Linked(list, next, Get(next, node), before, Some(cur)) && Linked(list, next, Get(list, cur), curKids, None)
  }

  lemma ChainGrows(list: Links, next: Links, list': Links, next': Links,
                   node: MenuNode, cur: MenuNode, m: MenuNode, taken: Tree, before: Tree, curKids: Tree)
    requires ChainOf(list, next, node, cur, taken, before, curKids) && Distinct(taken) && Get(next, cur) == Some(m)
    requires Same(list, list', Nodes(taken)) && Same(next, next', Nodes(taken) + {node})
    ensures Linked(list', next', Get(next', node), taken, Some(m))
  {
    if cur != node {
      var last := Node(cur, curKids, Nil);
      AppendSplits(before, last);
      LinkedKept(list, next, list', next', Get(next, node), before, Some(cur));
      LinkedKept(list, next, list', next', Get(list, cur), curKids, None);
      LinkedAppend(list', next', Get(next', node), before, Some(cur), last, Some(m));
    }
  }

  /** Parts of `t` without common nodes. */
  ghost predicate Apart(taken: Tree, left: Tree, t: Tree) {
    && Distinct(taken) && Distinct(left) && Nodes(taken) !! Nodes(left) && Nodes(taken) + Nodes(left) <= Nodes(t)
    && Size(left) <= Size(t)
  }

  /** `left` is rewritten to `f`, whose first node is taken. */
  lemma {:induction false} TakenApart(taken: Tree, left: Tree, f: Tree, t: Tree)
    requires Apart(taken, left, t) && f.Node? && Distinct(f) && Nodes(f) <= Nodes(left) && Size(f) <= Size(left)
    ensures Apart(Append(taken, Node(f.n, f.kids, Nil)), f.rest, t) && f.n !in Nodes(taken)
  {
    var cell := Node(f.n, f.kids, Nil);
    AppendSplits(taken, cell);
    assert Distinct(cell) && Nodes(cell) !! Nodes(f.rest);
    assert Nodes(cell) + Nodes(f.rest) == Nodes(f) && f.n in Nodes(cell);
    SetsApart(Nodes(taken), Nodes(left), Nodes(cell), Nodes(f.rest), Nodes(t));
  }

  lemma SetsApart(taken: set<MenuNode>, left: set<MenuNode>, cell: set<MenuNode>, rest: set<MenuNode>,
                  all: set<MenuNode>)
    requires taken !! left && taken + left <= all && cell + rest <= left && cell !! rest
    ensures taken !! cell && (taken + cell) !! rest && taken + cell + rest <= all
  {
  }

  /** The first node of `f` gets `node` as its parent. */
  lemma Adopted(parent: Links, parent': Links, taken: Tree, f: Tree, node: MenuNode, par: Option<MenuNode>)
    requires f.Node? && Distinct(f) && Parents(parent, taken, Some(node)) && Parents(parent, f, par)
    requires parent' == parent[f.n := node] && f.n !in Nodes(taken)
    ensures Parents(parent', Append(taken, Node(f.n, f.kids, Nil)), Some(node)) && Parents(parent', f.rest, par)
  {
    ParentsKept(parent, parent', taken, Some(node));
    ParentsKept(parent, parent', f.kids, Some(f.n));
    ParentsKept(parent, parent', f.rest, par);
    ParentsAppend(parent', taken, Node(f.n, f.kids, Nil), Some(node));
  }

  // ----- Where a walk over the tree is -----

  /** The ancestors of a node, innermost first, each with the siblings after it. */
  datatype Path = Top | Under(a: MenuNode, rest: Tree, up: Path)

  ghost predicate Above(list: Links, next: Links, parent: Links, node: MenuNode, path: Path)
    decreases path
  {
    match path
    case Top => node !in parent
    case Under(a, rest, up) =>
      && Get(parent, node) == Some(a) && Linked(list, next, Get(next, a), rest, None)
      && Parents(parent, rest, Get(parent, a)) && Above(list, next, parent, a, up)
  }

  /** What comes after a node's own siblings. */
  ghost function After(path: Path): seq<MenuNode> {
    if path.Top? then [] else Preorder(path.rest) + After(path.up)
  }

  /** What a walk has ahead of it. */
  ghost function Ahead(kids: Tree, rest: Tree, path: Path): seq<MenuNode> {
    Preorder(kids) + Preorder(rest) + After(path)
  }

  lemma {:induction false} AheadMoves(n: MenuNode, kids: Tree, rest: Tree, path: Path)
    ensures kids.Node? ==> Ahead(kids, rest, path) == [kids.n] + Ahead(kids.kids, kids.rest, Under(n, rest, path))
    ensures kids.Nil? && rest.Node? ==> Ahead(kids, rest, path) == [rest.n] + Ahead(rest.kids, rest.rest, path)
    ensures path.Under? && path.rest.Node? ==>
      After(path) == [path.rest.n] + Ahead(path.rest.kids, path.rest.rest, path.up)
  {
  }

  ghost function Depth(path: Path): nat { if path.Top? then 0 else 1 + Depth(path.up) }

  ghost predicate NoneTwice(s: seq<MenuNode>) { forall i, j :: 0 <= i < j < |s| ==> s[i] != s[j] }

  lemma NoneTwiceConcat(a: seq<MenuNode>, b: seq<MenuNode>)
    requires NoneTwice(a) && NoneTwice(b) && forall n :: n in a ==> n !in b
    ensures NoneTwice(a + b)
  {
    forall i, j | 0 <= i < j < |a + b| ensures (a + b)[i] != (a + b)[j] {
      if i < |a| <= j { assert a[i] in a && b[j - |a|] in b; }
    }
  }

  /** Where no node occurs twice, the definition order has none twice. */
  lemma {:induction false} OnceEach(t: Tree)
    requires Distinct(t)
    ensures forall n :: n in Nodes(t) <==> n in Preorder(t)
    ensures NoneTwice(Preorder(t))
  {
    if t.Node? {
      OnceEach(t.kids);
      OnceEach(t.rest);
      NoneTwiceConcat([t.n], Preorder(t.kids));
      NoneTwiceConcat([t.n] + Preorder(t.kids), Preorder(t.rest));
    }
  }

  /** The parent is the same for all siblings. */
  lemma AboveNext(list: Links, next: Links, parent: Links, node: MenuNode, path: Path, n: MenuNode)
    requires Above(list, next, parent, node, path) && Get(parent, n) == Get(parent, node)
    ensures Above(list, next, parent, n, path)
  {
  }

  /** For each symbol only the first of its nodes stays; `seen` has the symbols met so far. */
  ghost function Firsts(s: seq<MenuNode>, sym: MenuNode -> nat, seen: set<nat>): seq<MenuNode> {
    if s == [] then []
    else if s[0].kind != SymbolItem then [s[0]] + Firsts(s[1..], sym, seen)
    else (if sym(s[0]) in seen then [] else [s[0]]) + Firsts(s[1..], sym, seen + {sym(s[0])})
  }

  ghost function Walked(s: seq<MenuNode>, unique: bool, sym: MenuNode -> nat, seen: set<nat>): seq<MenuNode> {
    if unique then Firsts(s, sym, seen) else s
  }

  /** What the walk has yielded and what is ahead, one node later. */
  lemma WalkedStep(out: seq<MenuNode>, n: MenuNode, rest: seq<MenuNode>, unique: bool, sym: MenuNode -> nat,
    seen: set<nat>)
    ensures !unique || n.kind != SymbolItem ==>
      out + Walked([n] + rest, unique, sym, seen) == out + [n] + Walked(rest, unique, sym, seen)
    ensures unique && n.kind == SymbolItem && sym(n) in seen ==>
      Walked([n] + rest, unique, sym, seen) == Walked(rest, unique, sym, seen)
    ensures unique && n.kind == SymbolItem && sym(n) !in seen ==>
      out + Walked([n] + rest, unique, sym, seen) == out + [n] + Walked(rest, unique, sym, seen + {sym(n)})
  {
    assert ([n] + rest)[1..] == rest;
    if sym(n) in seen { assert seen + {sym(n)} == seen; }
    SeqAssoc(out, [n], Walked(rest, unique, sym, seen));
    SeqAssoc(out, [n], Walked(rest, unique, sym, seen + {sym(n)}));
  }

  /** A node stays if and only if it is not a symbol's or no earlier node is the symbol's. */
  lemma {:induction false} FirstsAre(s: seq<MenuNode>, sym: MenuNode -> nat, seen: set<nat>, i: nat)
    requires i < |s| && NoneTwice(s)
    ensures s[i] in Firsts(s, sym, seen) <==>
      s[i].kind != SymbolItem
      || (sym(s[i]) !in seen && forall j :: 0 <= j < i && s[j].kind == SymbolItem ==> sym(s[j]) != sym(s[i]))
    ensures forall n <- Firsts(s, sym, seen) :: n in s
  {
    var seen' := if s[0].kind == SymbolItem then seen + {sym(s[0])} else seen;
    if |s| > 1 { FirstsAre(s[1..], sym, seen', if i > 0 then i - 1 else 0); }
  }

  // ----- The loops -----

  class Menu {
    var next: Links
    var list: Links
    var parent: Links

    constructor (next: Links, list: Links, parent: Links)
      ensures this.next == next && this.list == list && this.parent == parent
    {
      this.next, this.list, this.parent := next, list, parent;
    }

    ghost predicate At(p: Option<MenuNode>, t: Tree, q: Option<MenuNode>)
      reads this
    {
      Linked(list, next, p, t, q)
    }

    /** Makes the parent of `node` the parent of all its children and finds the last one. */
    method AdoptChildren(node: MenuNode, ghost t: Tree)
      returns (last: MenuNode, ghost before: Tree, ghost lastKids: Tree)
      requires t.Node? && At(Get(list, node), t, None) && Distinct(t) && node !in Nodes(t)
      requires Parents(parent, t, Some(node))
      modifies this`parent
      ensures t == Append(before, Node(last, lastKids, Nil)) && Parents(parent, t, Get(old(parent), node))
      ensures At(Get(list, node), before, Some(last)) && At(Some(last), Node(last, lastKids, Nil), None)
      ensures forall n :: n !in Nodes(t) ==> Get(parent, n) == Get(old(parent), n)
    {
      ghost var par := Get(parent, node);
      last, before := list[node], Nil;
      ghost var after := t;
      while true
        invariant after.Node? && last == after.n && Append(before, after) == t
        invariant Distinct(before) && Distinct(after) && Nodes(before) !! Nodes(after)
        invariant Nodes(before) + Nodes(after) == Nodes(t)
        invariant At(Get(list, node), before, Some(last)) && At(Some(last), after, None)
        invariant Parents(parent, before, par) && Parents(parent, after, Some(node))
        invariant forall n :: n !in Nodes(t) ==> Get(parent, n) == Get(old(parent), n)
        decreases Size(after)
      {
        ghost var was := parent;
        LinkedStart(list, next, Get(next, last), after.rest);
        parent := Set(parent, last, Get(parent, node));
        ParentsKept(was, parent, before, par);
        ParentsKept(was, parent, after.kids, Some(last));
        ParentsKept(was, parent, after.rest, Some(node));
        lastKids := after.kids;
        ghost var cell := Node(last, lastKids, Nil);
        ParentsAppend(parent, before, cell, par);
        if last !in next {
          return;
        }
        LinkedAppend(list, next, Get(list, node), before, Some(last), cell, Get(next, last));
        AppendSplits(before, cell);
        AppendNested(before, last, after.kids, after.rest);
        before, after := Append(before, cell), after.rest;
        last := next[last];
      }
    }

    /** The children of `node` become the siblings after it. */
    method SpliceChildren(node: MenuNode, ghost t: Tree)
      requires t.Node? && t.n == node && t.kids.Node? && At(Some(node), t, None) && Distinct(t)
      requires Parents(parent, t, Get(parent, node))
      modifies this
      ensures At(Some(node), Node(node, Nil, Append(t.kids, t.rest)), None)
      ensures Parents(parent, Node(node, Nil, Append(t.kids, t.rest)), Get(old(parent), node))
      ensures Unchanged(old(list), list, Nodes(t)) && Unchanged(old(next), next, Nodes(t))
      ensures Unchanged(old(parent), parent, Nodes(t))
    {
      ghost var par := Get(parent, node);
      var last, before, lastKids := AdoptChildren(node, t.kids);
      ghost var cell := Node(last, lastKids, Nil);
      AppendSplits(before, cell);
      ParentsKept(old(parent), parent, t.rest, par);
      ParentsAppend(parent, t.kids, t.rest, par);
      next := Set(next, last, Get(next, node));
      next := Set(next, node, Get(list, node));
      list := Set(list, node, None);
      LinkedKept(old(list), old(next), list, next, Get(next, node), before, Some(last));
      LinkedKept(old(list), old(next), list, next, Get(list, last), lastKids, None);
      LinkedKept(old(list), old(next), list, next, Get(next, last), t.rest, None);
      LinkedAppend(list, next, Get(next, node), before, Some(last), cell, Get(next, last));
      LinkedAppend(list, next, Get(next, node), t.kids, Get(next, last), t.rest, None);
    }

    /** One turn of the loop below: what is ahead of it gets its final first node. */
    method FlattenFirst(first: MenuNode, node: MenuNode, ghost done: Tree, ghost todo: Tree,
                        ghost par: Option<MenuNode>)
      returns (ghost flat: Tree)
      requires Split(list, next, Some(first), done, Some(node), todo) && todo.Node?
      requires Parents(parent, done, par) && Parents(parent, todo, par)
      modifies this
      ensures Split(list, next, Some(first), done, Some(node), flat)
      ensures Parents(parent, done, par) && Parents(parent, flat, par)
      ensures flat.Node? && flat.n == node && Flatten(todo) == Node(node, flat.kids, Flatten(flat.rest))
      ensures Nodes(flat) == Nodes(todo) && Size(flat) == Size(todo)
      ensures Touched(old(list), old(next), old(parent), Nodes(todo))
    {
      LinkedStart(list, next, Get(list, node), todo.kids);
      flat := todo;
      if node in list && !node.prompt && node.kind != ChoiceItem {
        ghost var l, n, p := list, next, parent;
        flat := Node(node, Nil, Append(todo.kids, todo.rest));
        AppendSplits(todo.kids, todo.rest);
        AppendFacts(todo.kids, todo.rest);
        SpliceChildren(node, todo);
        SplitChange(l, n, list, next, Some(first), done, Some(node), todo, flat);
        ParentsKept(p, parent, done, par);
      }
    }

    /** _flatten() */
    method FlattenList(first: MenuNode, ghost t: Tree, ghost par: Option<MenuNode>)
      requires t.Node? && t.n == first && At(Some(first), t, None) && Distinct(t) && Parents(parent, t, par)
      modifies this
      ensures At(Some(first), Flatten(t), None) && Distinct(Flatten(t)) && Parents(parent, Flatten(t), par)
      ensures Nodes(Flatten(t)) == Nodes(t)
      ensures Touched(old(list), old(next), old(parent), Nodes(t))
    {
      var cur := Some(first);
      ghost var done, todo := Nil, t;
      while cur.Some?
        invariant Split(list, next, Some(first), done, cur, todo) && Nodes(t) == Nodes(done) + Nodes(todo)
        invariant Append(done, Flatten(todo)) == Flatten(t)
        invariant Parents(parent, done, par) && Parents(parent, todo, par)
        invariant Touched(old(list), old(next), old(parent), Nodes(t))
        decreases Size(todo)
      {
        var node := cur.value;
        ghost var flat := FlattenFirst(first, node, done, todo, par);
        SplitNext(list, next, Some(first), done, cur, flat);
        ParentsNext(parent, done, flat, par);
        AppendNested(done, node, flat.kids, Flatten(flat.rest));
        done, todo := Append(done, Node(node, flat.kids, Nil)), flat.rest;
        cur := Get(next, node);
      }
      AppendNil(done);
    }

    /** _remove_ifs() */
    method RemoveIfNodes(node: MenuNode, ghost t: Tree)
      requires At(Get(list, node), t, None) && Distinct(t) && node !in Nodes(t)
      modifies this`list, this`next
      ensures At(Get(list, node), RemoveIfs(t), None)
      ensures Unchanged(old(list), list, {node}) && Unchanged(old(next), next, Nodes(t))
    {
      var cur := Get(list, node);
      ghost var todo := t;
      while cur.Some? && cur.value.kind == IfItem
        invariant At(cur, todo, None) && Distinct(todo) && Nodes(todo) <= Nodes(t) && RemoveIfs(todo) == RemoveIfs(t)
        decreases Size(todo)
      {
        cur, todo := Get(next, cur.value), todo.rest;
      }
      ghost var first := cur;
      list := Set(list, node, cur);
      LinkedKept(old(list), next, list, next, cur, todo, None);
      ghost var done := Nil;
      while cur.Some?
        invariant Split(list, next, first, done, cur, todo) && Nodes(done) + Nodes(todo) <= Nodes(t)
        invariant todo.Node? ==> todo.n.kind != IfItem
        invariant Append(done, RemoveIfs(todo)) == RemoveIfs(t)
        invariant Unchanged(old(next), next, Nodes(t)) && list == Set(old(list), node, first)
        decreases Size(todo)
      {
        ghost var n := next;
        ghost var rest := SkipIfs(cur.value, todo);
        ghost var kept := Node(cur.value, todo.kids, rest);
        SplitChange(list, n, list, next, first, done, cur, todo, kept);
        SplitNext(list, next, first, done, cur, kept);
        AppendNested(done, cur.value, todo.kids, RemoveIfs(rest));
        done, todo := Append(done, Node(cur.value, todo.kids, Nil)), rest;
        cur := Get(next, cur.value);
      }
      AppendNil(done);
    }

    /** The `if` nodes right after `cur` are skipped. */
    method SkipIfs(cur: MenuNode, ghost t: Tree) returns (ghost rest: Tree)
      requires t.Node? && t.n == cur && At(Some(cur), t, None) && Distinct(t)
      modifies this`next
      ensures At(Some(cur), Node(cur, t.kids, rest), None) && Distinct(Node(cur, t.kids, rest))
      ensures Nodes(rest) <= Nodes(t.rest) && Size(rest) <= Size(t.rest) && RemoveIfs(rest) == RemoveIfs(t.rest)
      ensures rest.Node? ==> rest.n.kind != IfItem
      ensures Unchanged(old(next), next, {cur})
    {
      var after := Get(next, cur);
      rest := t.rest;
      while after.Some? && after.value.kind == IfItem
        invariant At(after, rest, None) && Distinct(rest) && Nodes(rest) <= Nodes(t.rest) && next == old(next)
        invariant RemoveIfs(rest) == RemoveIfs(t.rest) && Size(rest) <= Size(t.rest)
        decreases Size(rest)
      {
        after, rest := Get(next, after.value), rest.rest;
      }
      LinkedStart(list, next, after, rest);
      next := Set(next, cur, after);
      LinkedKept(list, old(next), list, next, Get(list, cur), t.kids, None);
      LinkedKept(list, old(next), list, next, after, rest, None);
    }

    /** The last steps on a level. */
    method CleanChildren(node: MenuNode, ghost t: Tree)
      requires t.Node? && At(Get(list, node), t, None) && Distinct(t) && node !in Nodes(t)
      requires Parents(parent, t, Some(node))
      modifies this
      ensures At(Get(list, node), Clean(t), None) && Distinct(Clean(t)) && Parents(parent, Clean(t), Some(node))
      ensures Nodes(Clean(t)) <= Nodes(t)
      ensures Unchanged(old(list), list, Nodes(t) + {node}) && Unchanged(old(next), next, Nodes(t))
      ensures Unchanged(old(parent), parent, Nodes(t))
    {
      FlattenList(list[node], t, Some(node));
      RemoveIfsFacts(parent, Flatten(t), Some(node));
      RemoveIfNodes(node, Flatten(t));
    }

    /** Only the links of nodes in `ns` have changed since the given values. */
    ghost predicate Touched(l: Links, n: Links, p: Links, ns: set<MenuNode>)
      reads this
    {
      Unchanged(l, list, ns) && Unchanged(n, next, ns) && Unchanged(p, parent, ns)
    }

    ghost predicate Chain(node: MenuNode, cur: MenuNode, taken: Tree, before: Tree, curKids: Tree)
      reads this
    {
      ChainOf(list, next, node, cur, taken, before, curKids)
    }

    /** What the loop below keeps. */
    ghost predicate Taking(dep: AutoDep, node: MenuNode, t: Tree, par: Option<MenuNode>,
                           cur: MenuNode, taken: Tree, left: Tree)
      reads this
    {
      && At(Get(next, cur), left, None) && node !in list && Apart(taken, left, t)
      && Parsed(left) && IfsPromptless(left)
      && Parents(parent, taken, Some(node)) && Parents(parent, left, par)
    }

    /** One turn of the loop: `cur`'s successor is finalised and becomes a child of `node`. */
    method TakeNext(dep: AutoDep, node: MenuNode, ghost t: Tree, ghost par: Option<MenuNode>,
                    cur: MenuNode, ghost taken: Tree, ghost left: Tree, ghost before: Tree, ghost curKids: Tree)
      returns (m: MenuNode, ghost f: Tree)
      requires cur in next && Taking(dep, node, t, par, cur, taken, left) && Chain(node, cur, taken, before, curKids)
      requires node !in Nodes(t)
      modifies this
      ensures left.Node? && f == Finalize(dep, left) && m == left.n == f.n && m in Nodes(t)
      ensures Taking(dep, node, t, par, m, Append(taken, Node(m, f.kids, Nil)), f.rest)
      ensures Chain(node, m, Append(taken, Node(m, f.kids, Nil)), taken, f.kids)
      ensures Touched(old(list), old(next), old(parent), Nodes(left))
      decreases Size(t), 2
    {
      LinkedStart(list, next, Get(next, cur), left);
      m := next[cur];
      f := FinalizeNode(dep, m, left, par);
      FinalizeOrder(dep, left);
      TakenApart(taken, left, f, t);
      ChainGrows(old(list), old(next), list, next, node, cur, m, taken, before, curKids);
      ParentsKept(old(parent), parent, taken, Some(node));
      Adopt(m, node, taken, f, par);
    }

    /** The finalised node becomes a child of `node`. */
    method Adopt(m: MenuNode, node: MenuNode, ghost taken: Tree, ghost f: Tree, ghost par: Option<MenuNode>)
      requires f.Node? && f.n == m && Distinct(f) && m !in Nodes(taken)
      requires Parents(parent, taken, Some(node)) && Parents(parent, f, par)
      modifies this`parent
      ensures parent == Set(old(parent), m, Some(node))
      ensures Parents(parent, Append(taken, Node(m, f.kids, Nil)), Some(node)) && Parents(parent, f.rest, par)
    {
      parent := Set(parent, m, Some(node));
      Adopted(old(parent), parent, taken, f, node, par);
    }

    /** The part of _finalize_node() that makes implicit menus: the loop over the siblings
        after a symbol, and the pointer changes that tilt those found up above it. */
    method MakeImplicitMenu(dep: AutoDep, node: MenuNode, ghost t: Tree, ghost par: Option<MenuNode>)
      returns (ghost taken: Tree, ghost left: Tree)
      requires At(Get(next, node), t, None) && node !in list && node !in Nodes(t)
      requires Distinct(t) && Parsed(t) && IfsPromptless(t) && Parents(parent, t, par)
      modifies this
      ensures (taken, left) == Absorb(dep, node, t)
      ensures At(Get(list, node), taken, None) && At(Get(next, node), left, None)
      ensures Distinct(taken) && Distinct(left) && Nodes(taken) !! Nodes(left) && Nodes(taken) + Nodes(left) <= Nodes(t)
      ensures Parents(parent, taken, Some(node)) && Parents(parent, left, par)
      ensures Unchanged(old(list), list, Nodes(t) + {node}) && Unchanged(old(next), next, Nodes(t) + {node})
      ensures Unchanged(old(parent), parent, Nodes(t))
      decreases Size(t), 3
    {
      var cur := node;
      ghost var before, curKids := Nil, Nil;
      taken, left := Nil, t;
      while cur in next && dep(node, next[cur])
        invariant Taking(dep, node, t, par, cur, taken, left) && Chain(node, cur, taken, before, curKids)
        invariant var (a, b) := Absorb(dep, node, left); Absorb(dep, node, t) == (Append(taken, a), b)
        invariant Touched(old(list), old(next), old(parent), Nodes(t))
        decreases Size(left)
      {
        LinkedStart(list, next, Get(next, cur), left);
        ghost var f;
        cur, f := TakeNext(dep, node, t, par, cur, taken, left, before, curKids);
        AppendNested(taken, cur, f.kids, Absorb(dep, node, f.rest).0);
        before, taken, curKids, left := taken, Append(taken, Node(cur, f.kids, Nil)), f.kids, f.rest;
      }
      LinkedStart(list, next, Get(next, cur), left);
      AppendNil(taken);
      if cur != node {
        TiltUp(node, cur, taken, left, before, curKids);
      }
    }

    /** The siblings up to `cur` become the children of `node`. */
    method TiltUp(node: MenuNode, cur: MenuNode, ghost taken: Tree, ghost left: Tree, ghost before: Tree,
                  ghost curKids: Tree)
      requires cur != node && Chain(node, cur, taken, before, curKids) && At(Get(next, cur), left, None)
      requires Distinct(taken) && Nodes(taken) !! Nodes(left) && node !in Nodes(taken) + Nodes(left)
      modifies this`list, this`next
      ensures At(Get(list, node), taken, None) && At(Get(next, node), left, None)
      ensures Unchanged(old(list), list, {node}) && Unchanged(old(next), next, {node, cur})
      ensures cur in Nodes(taken)
    {
      ghost var cell := Node(cur, curKids, Nil);
      AppendSplits(before, cell);
      list := Set(list, node, Get(next, node));
      next := Set(next, node, Get(next, cur));
      next := Set(next, cur, None);
      LinkedKept(old(list), old(next), list, next, Get(list, node), before, Some(cur));
      LinkedKept(old(list), old(next), list, next, Get(list, cur), curKids, None);
      LinkedKept(old(list), old(next), list, next, Get(next, node), left, None);
      LinkedAppend(list, next, Get(list, node), before, Some(cur), cell, None);
    }

    /** The loop of _finalize_node() over the children of a choice, menu or if. */
    method FinalizeChildren(dep: AutoDep, node: MenuNode, ghost t: Tree)
      returns (ghost r: Tree)
      requires At(Get(list, node), t, None) && node !in Nodes(t)
      requires Distinct(t) && Parsed(t) && IfsPromptless(t) && Parents(parent, t, Some(node))
      modifies this
      ensures r == FinalizeList(dep, t) && At(Get(list, node), r, None)
      ensures Distinct(r) && Parents(parent, r, Some(node)) && Nodes(r) <= Nodes(t)
      ensures Touched(old(list), old(next), old(parent), Nodes(t))
      decreases Size(t), 2
    {
      var cur := Get(list, node);
      ghost var first, done, todo := cur, Nil, t;
      while cur.Some?
        invariant Split(list, next, first, done, cur, todo) && Nodes(done) + Nodes(todo) <= Nodes(t)
        invariant Parsed(todo) && IfsPromptless(todo) && Size(todo) <= Size(t)
        invariant Parents(parent, done, Some(node)) && Parents(parent, todo, Some(node))
        invariant FinalizeList(dep, t) == Append(done, FinalizeList(dep, todo))
        invariant Touched(old(list), old(next), old(parent), Nodes(t))
        decreases Size(todo)
      {
        LinkedStart(list, next, cur, todo);
        ghost var l, n, p := list, next, parent;
        ghost var f := FinalizeNode(dep, cur.value, todo, Some(node));
        FinalizeOrder(dep, todo);
        SplitChange(l, n, list, next, first, done, cur, todo, f);
        SplitNext(list, next, first, done, cur, f);
        ParentsKept(p, parent, done, Some(node));
        ParentsNext(parent, done, f, Some(node));
        AppendNested(done, cur.value, f.kids, FinalizeList(dep, f.rest));
        done, todo := Append(done, Node(cur.value, f.kids, Nil)), f.rest;
        cur := Get(next, cur.value);
      }
      LinkedStart(list, next, cur, todo);
      AppendNil(done);
      r := done;
    }

    /** _finalize_node() */
    method FinalizeNode(dep: AutoDep, node: MenuNode, ghost t: Tree, ghost par: Option<MenuNode>)
      returns (ghost r: Tree)
      requires t.Node? && t.n == node && At(Some(node), t, None)
      requires Distinct(t) && Parsed(t) && IfsPromptless(t) && Parents(parent, t, par)
      modifies this
      ensures r == Finalize(dep, t) && At(Some(node), r, None)
      ensures Distinct(r) && Parents(parent, r, par) && Nodes(r) <= Nodes(t)
      ensures Touched(old(list), old(next), old(parent), Nodes(t))
      decreases Size(t), 1
    {
      ghost var kids, rest := t.kids, t.rest;
      LinkedStart(list, next, Get(list, node), t.kids);
      if node.kind == SymbolItem {
        kids, rest := MakeImplicitMenu(dep, node, t.rest, par);
      } else if node in list {
        kids := FinalizeChildren(dep, node, t.kids);
        LinkedKept(old(list), old(next), list, next, Get(next, node), rest, None);
        ParentsKept(old(parent), parent, rest, par);
      }
      LinkedStart(list, next, Get(list, node), kids);
      ghost var l, n, p := list, next, parent;
      if node in list {
        CleanChildren(node, kids);
        LinkedKept(l, n, list, next, Get(next, node), rest, None);
        ParentsKept(p, parent, rest, par);
        kids := Clean(kids);
      }
      r := Node(node, kids, rest);
    }

    /** The tree from parsing is finalised from the top node on; a walk then meets the nodes
        in the order of their definitions, each once, and no `if` nodes. */
    method FinalizeTop(dep: AutoDep, top: MenuNode, ghost t: Tree) returns (order: seq<MenuNode>, ghost r: Tree)
      requires At(Some(top), Node(top, t, Nil), None) && Parents(parent, Node(top, t, Nil), None)
      requires Distinct(Node(top, t, Nil)) && Parsed(t) && IfsPromptless(t) && top.kind == MenuItem && top.prompt
      modifies this
      ensures At(Some(top), Node(top, r, Nil), None) && Parents(parent, Node(top, r, Nil), None)
      ensures Distinct(r) && NoIfs(r) && order == Preorder(r) == WithoutIfs(Preorder(t))
      ensures NoneTwice(order)
      ensures FinalParents.Held(r) && FinalParents.Pairs(r, top) == FinalParents.Placed(dep, top, [], t)
      ensures ParentsAre(parent, FinalParents.Placed(dep, top, [], t))
    {
      ghost var f := FinalizeNode(dep, top, Node(top, t, Nil), None);
      DefinitionOrderKept(dep, Node(top, t, Nil));
      r := f.kids;
      FinalParents.ParentsArePlaced(dep, top, t);
      ParentsArePairs(parent, r, top);
      OnceEach(r);
      order := NodeIter(top, false, (n: MenuNode) => n.id, r);
    }

    /** node_iter() */
    method NodeIter(top: MenuNode, uniqueSyms: bool, sym: MenuNode -> nat, ghost t: Tree) returns (out: seq<MenuNode>)
      requires At(Some(top), Node(top, t, Nil), None) && Parents(parent, Node(top, t, Nil), None)
      ensures out == if uniqueSyms then Firsts(Preorder(t), sym, {}) else Preorder(t)
    {
      out := [];
      var node, visited := top, {};
      ghost var kids, rest, path, ahead := t, Nil, Top, Preorder(t);
      while true
        invariant Here(node, kids, rest, path) && ahead == Ahead(kids, rest, path)
        invariant out + Walked(ahead, uniqueSyms, sym, visited) == Walked(Preorder(t), uniqueSyms, sym, {})
        decreases |ahead|
      {
        var more;
        more, node, kids, rest, path := Advance(node, kids, rest, path);
        if !more {
          return;
        }
        WalkedStep(out, node, Ahead(kids, rest, path), uniqueSyms, sym, visited);
        ahead := Ahead(kids, rest, path);
        if uniqueSyms && node.kind == SymbolItem {
          if sym(node) in visited {
            continue;
          }
          visited := visited + {sym(node)};
        }
        out := out + [node];
      }
    }

    /** The walk is at `node`: its children and later siblings are these. */
    ghost predicate Here(node: MenuNode, kids: Tree, rest: Tree, path: Path)
      reads this
    {
      && At(Get(list, node), kids, None) && At(Get(next, node), rest, None)
      && Parents(parent, kids, Some(node)) && Parents(parent, rest, Get(parent, node))
      && Above(list, next, parent, node, path)
    }

    /** One jump of the walk. */
    method Advance(at: MenuNode, ghost kids: Tree, ghost rest: Tree, ghost path: Path)
      returns (more: bool, node: MenuNode, ghost kids': Tree, ghost rest': Tree, ghost path': Path)
      requires Here(at, kids, rest, path)
      ensures more ==> Here(node, kids', rest', path') && Ahead(kids, rest, path) == [node] + Ahead(kids', rest', path')
      ensures !more ==> Ahead(kids, rest, path) == []
    {
      AheadMoves(at, kids, rest, path);
      LinkedStart(list, next, Get(list, at), kids);
      LinkedStart(list, next, Get(next, at), rest);
      more, node, kids', rest', path' := true, at, kids, rest, path;
      if at in list {
        node := list[at];
        kids', rest', path' := kids.kids, kids.rest, Under(at, rest, path);
      } else if at in next {
        node := next[at];
        AboveNext(list, next, parent, at, path, node);
        kids', rest' := rest.kids, rest.rest;
      } else {
        while node in parent
          invariant Above(list, next, parent, node, path') && After(path') == After(path)
          decreases Depth(path')
        {
          node := parent[node];
          ghost var above := path'.rest;
          path' := path'.up;
          LinkedStart(list, next, Get(next, node), above);
          AheadMoves(node, Nil, above, path');
          if node in next {
            AboveNext(list, next, parent, node, path', next[node]);
            node := next[node];
            kids', rest' := above.kids, above.rest;
            return;
          }
        }
        more := false;
      }
    }
  }

  /** Only the links of nodes in `ns` changed. */
  ghost predicate Unchanged(m: Links, m': Links, ns: set<MenuNode>) {
    forall n :: n !in ns ==> Get(m', n) == Get(m, n)
  }
}

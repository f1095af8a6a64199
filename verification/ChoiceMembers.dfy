/**
  The members of choices: what _finalize_choice() registers for the symbols in the finalised
  list of a choice, and the types that choices and their symbols take from each other.
 */
module ChoiceMembers {
  import opened Model
  import opened MenuTree

  /** The symbols among the siblings; `item` gives the symbol of a node. */
  function SymbolsIn(t: Tree, item: MenuNode -> nat): seq<nat> {
    if t.Nil? then [] else (if t.n.kind == SymbolItem then [item(t.n)] else []) + SymbolsIn(t.rest, item)
  }

  /** The siblings, without what is below them. */
  ghost function Level(t: Tree): seq<MenuNode> { if t.Nil? then [] else [t.n] + Level(t.rest) }

  /** A symbol is a member if and only if some node of the list itself is the symbol's. */
  lemma {:induction false} MembersAre(t: Tree, item: MenuNode -> nat, x: nat)
    ensures x in SymbolsIn(t, item) <==> exists n :: n in Level(t) && n.kind == SymbolItem && item(n) == x
  {
    if t.Node? {
      MembersAre(t.rest, item, x);
      assert forall n :: n in Level(t) <==> n == t.n || n in Level(t.rest);
    }
  }

  /** The first known type among the symbols. */
  function FirstType(types: map<nat, Type>, syms: seq<nat>): Type {
    if syms == [] then UNKNOWN
    else if TypeIn(types, syms[0]) != UNKNOWN then TypeIn(types, syms[0])
    else FirstType(types, syms[1..])
  }

  function TypeIn(types: map<nat, Type>, x: nat): Type { if x in types then types[x] else UNKNOWN }

  lemma {:induction false} FirstTypeIs(types: map<nat, Type>, syms: seq<nat>)
    ensures FirstType(types, syms) == UNKNOWN <==> forall s <- syms :: TypeIn(types, s) == UNKNOWN
    ensures FirstType(types, syms) != UNKNOWN ==> TypedAt(types, syms, FirstType(types, syms))
  {
    if syms != [] {
      FirstTypeIs(types, syms[1..]);
      assert syms[0] in syms;
      var t := FirstType(types, syms);
      if t != UNKNOWN && TypeIn(types, syms[0]) == UNKNOWN {
        var i :| 0 <= i < |syms[1..]| && TypeIn(types, syms[1..][i]) == t
          && forall j :: 0 <= j < i ==> TypeIn(types, syms[1..][j]) == UNKNOWN;
        assert syms[i + 1] == syms[1..][i];
        assert forall j :: 1 <= j < i + 1 ==> syms[j] == syms[1..][j - 1];
      }
    }
  }

  /** The first of the symbols that has a known type has type `t`. */
  ghost predicate TypedAt(types: map<nat, Type>, syms: seq<nat>, t: Type) {
    exists i :: 0 <= i < |syms| && TypeIn(types, syms[i]) == t
      && forall j :: 0 <= j < i ==> TypeIn(types, syms[j]) == UNKNOWN
  }

  /** The symbols without a type get type `t`. */
  ghost predicate FilledWith(before: map<nat, Type>, after: map<nat, Type>, syms: seq<nat>, t: Type) {
    forall s: nat ::
      TypeIn(after, s) == (if s in syms && TypeIn(before, s) == UNKNOWN then t else TypeIn(before, s))
  }

  method Filled(before: map<nat, Type>, syms: seq<nat>, t: Type) returns (types: map<nat, Type>)
    ensures FilledWith(before, types, syms, t)
  {
    types := before;
    for i := 0 to |syms|
      invariant FilledWith(before, types, syms[..i], t)
    {
      assert syms[..i + 1] == syms[..i] + [syms[i]];
      if TypeIn(types, syms[i]) == UNKNOWN {
        types := types[syms[i] := t];
      }
    }
    assert syms[..|syms|] == syms;
  }

  class Members {
    var choiceOf: map<nat, nat>        // Symbol.choice
    var syms: map<nat, seq<nat>>       // Choice.syms
    var symTypes: map<nat, Type>       // Symbol.orig_type
    var choiceTypes: map<nat, Type>    // Choice.orig_type

    constructor (symTypes: map<nat, Type>, choiceTypes: map<nat, Type>)
      ensures choiceOf == map[] && syms == map[] && this.symTypes == symTypes && this.choiceTypes == choiceTypes
    {
      choiceOf, syms := map[], map[];
      this.symTypes, this.choiceTypes := symTypes, choiceTypes;
    }

    /** _finalize_choice() for the finalised list of a node of choice `c`. */
    method FinalizeChoice(c: nat, list: Tree, item: MenuNode -> nat)
      modifies this
      ensures syms == old(syms)[c := OldSyms(old(syms), c) + SymbolsIn(list, item)]
      ensures AllIn(old(choiceOf), choiceOf, SymbolsIn(list, item), c)
      // A typed choice types all its symbols, and one typed symbol types the choice.
      ensures TypeIn(choiceTypes, c) != UNKNOWN <==>
        TypeIn(old(choiceTypes), c) != UNKNOWN || exists s :: s in syms[c] && TypeIn(old(symTypes), s) != UNKNOWN
      ensures TypeIn(old(choiceTypes), c) != UNKNOWN ==> TypeIn(choiceTypes, c) == TypeIn(old(choiceTypes), c)
      ensures TypeIn(old(choiceTypes), c) == UNKNOWN && TypeIn(choiceTypes, c) != UNKNOWN ==>
        TypedAt(old(symTypes), syms[c], TypeIn(choiceTypes, c))
      ensures FilledWith(old(symTypes), symTypes, syms[c], TypeIn(choiceTypes, c))
      ensures forall x: nat :: x != c ==> TypeIn(choiceTypes, x) == TypeIn(old(choiceTypes), x)
    {
      Register(c, list, item);
      FirstTypeIs(symTypes, syms[c]);
      if TypeIn(choiceTypes, c) == UNKNOWN {
        choiceTypes := choiceTypes[c := FirstType(symTypes, syms[c])];
      }
      symTypes := Filled(symTypes, syms[c], TypeIn(choiceTypes, c));
    }

    method Register(c: nat, list: Tree, item: MenuNode -> nat)
      modifies this`choiceOf, this`syms
      ensures syms == old(syms)[c := OldSyms(old(syms), c) + SymbolsIn(list, item)]
      ensures AllIn(old(choiceOf), choiceOf, SymbolsIn(list, item), c)
    {
      var found: seq<nat>;
      found, choiceOf := Registered(choiceOf, c, list, item);
      syms := syms[c := OldSyms(syms, c) + found];
    }
  }

  /** The symbols found are now in choice `c`. */
  ghost predicate AllIn(before: map<nat, nat>, after: map<nat, nat>, found: seq<nat>, c: nat) {
    forall s: nat :: Get(after, s) == (if s in found then Some(c) else Get(before, s))
  }

  method Registered(before: map<nat, nat>, c: nat, list: Tree, item: MenuNode -> nat)
    returns (found: seq<nat>, choiceOf: map<nat, nat>)
    ensures found == SymbolsIn(list, item) && AllIn(before, choiceOf, found, c)
  {
    var cur := list;
    found, choiceOf := [], before;
    while cur.Node?
      invariant found + SymbolsIn(cur, item) == SymbolsIn(list, item) && AllIn(before, choiceOf, found, c)
      decreases cur
    {
      SymbolsStep(found, cur, item);
      if cur.n.kind == SymbolItem {
        OneMoreIn(before, choiceOf, found, c, item(cur.n));
        found, choiceOf := found + [item(cur.n)], choiceOf[item(cur.n) := c];
      }
      cur := cur.rest;
    }
    assert found + [] == found;
  }

  lemma SymbolsStep(found: seq<nat>, t: Tree, item: MenuNode -> nat)
    requires t.Node?
    ensures found + SymbolsIn(t, item)
            == (if t.n.kind == SymbolItem then found + [item(t.n)] else found) + SymbolsIn(t.rest, item)
  {
    if t.n.kind != SymbolItem { assert [] + SymbolsIn(t.rest, item) == SymbolsIn(t.rest, item); }
  }

  lemma OneMoreIn(before: map<nat, nat>, after: map<nat, nat>, found: seq<nat>, c: nat, x: nat)
    requires AllIn(before, after, found, c)
    ensures AllIn(before, after[x := c], found + [x], c)
  {
    forall s: nat ensures Get(after[x := c], s) == (if s in found + [x] then Some(c) else Get(before, s)) {
      assert s in found + [x] <==> s in found || s == x;
    }
  }

  function OldSyms(syms: map<nat, seq<nat>>, c: nat): seq<nat> { if c in syms then syms[c] else [] }
}

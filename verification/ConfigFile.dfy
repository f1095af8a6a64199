/**
  Loading .config files.  A file is a sequence of lines that have been split at the first
  `=` (or recognised as "# CONFIG_X is not set"); everything right of the `=` is text.
 */
module ConfigFile {
  import opened Model
  import opened Evaluation
  import opened Engine
  import opened Strings

  datatype Line = Assign(name: string, rhs: string) | NotSet(name: string) | Other

  function LookupFrom(k: Kconfig, name: string, i: nat): (r: Option<nat>)
    ensures r.Some? ==> r.value < |k.symbols| && k.symbols[r.value].name == name
    decreases |k.symbols| - i
  {
    if i >= |k.symbols| then None
    else if k.symbols[i].name == name then Some(i)
    else LookupFrom(k, name, i + 1)
  }

  /** The defined symbol of that name. */
  function Lookup(k: Kconfig, name: string): (r: Option<nat>)
    ensures r.Some? ==> r.value < |k.symbols| && k.symbols[r.value].name == name
  {
    LookupFrom(k, name, 0)
  }

  /** n/m/y from the first character of the text. */
  function FirstLevel(text: string): Option<Tri> {
    if text == [] then None
    else if text[0] == 'n' then Some(0)
    else if text[0] == 'm' then Some(1)
    else if text[0] == 'y' then Some(2)
    else None
  }

  /** The value that the right-hand side of an assignment denotes for a type. */
  function ParseRhs(t: Type, rhs: string): Option<UserVal> {
    var text := RStrip(rhs);
    if BoolTristate(t) then
      match FirstLevel(text)
      case Some(l) => if t == BOOL && l == 1 then None else Some(Level(l))
      case None => None
    else if t == STRING then
      match ConfString(text) case Some(b) => Some(Text(Unescape(b))) case None => None
    else if t == KEY then Some(Text(Unescape(ConfKey(text))))
    else Some(Text(text))
  }

  datatype Assignment = Assignment(s: nat, v: UserVal)

  function CheckedAssignment(k: Kconfig, s: nat, v: UserVal): Option<Assignment> {
    if Acceptable(k, s, v) then Some(Assignment(s, v)) else None
  }

  /** The valid assignment that a line makes, if it makes one. */
  function Assigned(k: Kconfig, line: Line): Option<Assignment> {
    match line
    case Other => None
    case Assign(name, rhs) =>
      (match Lookup(k, name)
       case None => None
       case Some(s) =>
         match ParseRhs(k.Sym(s).origType, rhs) case None => None case Some(v) => CheckedAssignment(k, s, v))
    case NotSet(name) =>
      match Lookup(k, name)
      case None => None
      case Some(s) => if BoolTristate(k.Sym(s).origType) then CheckedAssignment(k, s, Level(0)) else None
  }

  /** The choice whose mode an assignment sets: m and y on a choice symbol do. */
  function ModeSet(k: Kconfig, a: Assignment): Option<nat> {
    if a.v.Level? && a.v.t != 0 then k.Sym(a.s).choice else None
  }

  /** The last assignment in the file to symbol `s`. */
  function LastVal(k: Kconfig, lines: seq<Line>, s: nat): Option<UserVal> {
    if lines == [] then None
    else
      var n := |lines| - 1;
      var a := Assigned(k, lines[n]);
      if a.Some? && a.value.s == s then Some(a.value.v) else LastVal(k, lines[..n], s)
  }

  /** The last mode that the file gives to choice `c`. */
  function LastMode(k: Kconfig, lines: seq<Line>, c: nat): Option<Tri> {
    if lines == [] then None
    else
      var n := |lines| - 1;
      var a := Assigned(k, lines[n]);
      if a.Some? && ModeSet(k, a.value) == Some(c) && ModeAcceptable(k, c, a.value.v.t) then Some(a.value.v.t)
      else LastMode(k, lines[..n], c)
  }

  /** The last symbol of choice `c` that the file sets to y. */
  function LastSel(k: Kconfig, lines: seq<Line>, c: nat): Option<nat> {
    if lines == [] then None
    else
      var n := |lines| - 1;
      var a := Assigned(k, lines[n]);
      if a.Some? && a.value.v == Level(2) && k.Sym(a.value.s).choice == Some(c) then Some(a.value.s)
      else LastSel(k, lines[..n], c)
  }

  /** The file gives the choice a mode, but selects none of its symbols: it sets m only. */
  predicate OnlyM(k: Kconfig, lines: seq<Line>, c: nat) {
    LastMode(k, lines, c).Some? && LastSel(k, lines, c).None?
  }

  function OrElse<T>(a: Option<T>, b: Option<T>): Option<T> { if a.Some? then a else b }

  /** The last entry wins: it is one of the entries, and there is one if any entry is. */
  lemma {:induction false} SomeWins<T>(last: nat -> Option<T>, entry: nat -> Option<T>, n: nat)
    requires last(0) == None && forall i: nat :: i < n ==> last(i + 1) == OrElse(entry(i), last(i))
    ensures last(n).Some? ==> exists i: nat :: i < n && entry(i) == last(n)
    ensures forall i: nat :: i < n && entry(i).Some? ==> last(n).Some?
  {
    if n > 0 {
      SomeWins(last, entry, n - 1);
      assert last(n) == OrElse(entry(n - 1), last(n - 1));
    }
  }

  /** The last entry wins, where only entry `s` can be one. */
  lemma {:induction false} LastWins<T>(last: nat -> Option<T>, entry: nat -> Option<T>, n: nat, s: nat)
    requires last(0) == None && forall i: nat :: i < n ==> last(i + 1) == OrElse(entry(i), last(i))
    requires forall i: nat :: i < n && i != s ==> entry(i) == None
    ensures last(n) == if s < n then entry(s) else None
  {
    if n > 0 { LastWins(last, entry, n - 1, s); }
  }

  /** `u` is `u0` with the assignments of the file made on top. */
  ghost predicate Merged(k: Kconfig, lines: seq<Line>, u0: User, u: User) {
    && (forall s: nat :: Get(u.vals, s) == OrElse(LastVal(k, lines, s), Get(u0.vals, s)))
    && (forall c: nat :: Get(u.modes, c) == OrElse(LastMode(k, lines, c), Get(u0.modes, c)))
    && (forall c: nat :: Get(u.sels, c) == OrElse(LastSel(k, lines, c), Get(u0.sels, c)))
  }

  /** `u` is what the file says, and nothing else, except that the user selection of a
      choice that only got m is still the one of `u0`. */
  ghost predicate Replaced(k: Kconfig, lines: seq<Line>, u0: User, u: User) {
    && (forall s: nat :: Get(u.vals, s) == LastVal(k, lines, s))
    && (forall c: nat :: Get(u.modes, c) == LastMode(k, lines, c))
    && (forall c: nat :: Get(u.sels, c) ==
          if OnlyM(k, lines, c) then Get(u0.sels, c) else LastSel(k, lines, c))
  }

  /** A replacing load forgets history, for every choice that does not only get m... */
  lemma LoadForgets(k: Kconfig, lines: seq<Line>, u1: User, u2: User, v1: User, v2: User)
    requires Replaced(k, lines, u1, v1) && Replaced(k, lines, u2, v2)
    ensures v1.vals == v2.vals && v1.modes == v2.modes
    ensures forall c: nat :: !OnlyM(k, lines, c) ==> Get(v1.sels, c) == Get(v2.sels, c)
  {
    forall s: nat ensures Get(v1.vals, s) == Get(v2.vals, s) {}
    forall c: nat ensures Get(v1.modes, c) == Get(v2.modes, c) {}
    SameMap(v1.vals, v2.vals);
    SameMap(v1.modes, v2.modes);
  }

  lemma SameMap<V>(a: map<nat, V>, b: map<nat, V>)
    requires forall x: nat :: Get(a, x) == Get(b, x)
    ensures a == b
  {
    forall x: nat ensures x in a <==> x in b { assert Get(a, x) == Get(b, x); }
    forall x | x in a ensures a[x] == b[x] { assert Get(a, x) == Get(b, x); }
  }

  /** ... and only for those: a selection survives the load of a file that sets only m. */
  lemma OnlyMKeeps(k: Kconfig, lines: seq<Line>, c: nat, u1: User, u2: User, v1: User, v2: User)
    requires Replaced(k, lines, u1, v1) && Replaced(k, lines, u2, v2)
    requires OnlyM(k, lines, c) && Get(u1.sels, c) != Get(u2.sels, c)
    ensures Get(v1.sels, c) != Get(v2.sels, c)
  {
    assert Get(v1.sels, c) == Get(u1.sels, c);
  }

  /** The user state that a replacing load of the file over `u0` leads to. */
  ghost function LoadResult(k: Kconfig, lines: seq<Line>, u0: User): User {
    User(map s: nat | s < |k.symbols| && LastVal(k, lines, s).Some? :: LastVal(k, lines, s).value,
         map c: nat | c < |k.choices| && LastMode(k, lines, c).Some? :: LastMode(k, lines, c).value,
         map c: nat | c < |k.choices| && LoadedSel(k, lines, u0, c).Some? :: LoadedSel(k, lines, u0, c).value)
  }

  function LoadedSel(k: Kconfig, lines: seq<Line>, u0: User, c: nat): Option<nat> {
    if OnlyM(k, lines, c) then Get(u0.sels, c) else LastSel(k, lines, c)
  }

  lemma {:induction false} FileIsInTables(k: Kconfig, lines: seq<Line>, x: nat)
    requires ChoicesOk(k)
    ensures LastVal(k, lines, x).Some? ==> x < |k.symbols|
    ensures LastMode(k, lines, x).Some? || LastSel(k, lines, x).Some? ==> x < |k.choices| && k.Ch(x).syms != []
  {
    if lines != [] {
      FileIsInTables(k, lines[..|lines| - 1], x);
      var a := Assigned(k, lines[|lines| - 1]);
      AssignedNormal(k, lines[|lines| - 1]);
      if a.Some? && k.Sym(a.value.s).choice == Some(x) { assert a.value.s in k.Ch(x).syms; }
    }
  }

  lemma LoadResultIs(k: Kconfig, lines: seq<Line>, u0: User)
    requires ChoicesOk(k) && ValidUser(k, u0)
    ensures Replaced(k, lines, u0, LoadResult(k, lines, u0))
  {
    var u := LoadResult(k, lines, u0);
    forall s: nat ensures Get(u.vals, s) == LastVal(k, lines, s) { FileIsInTables(k, lines, s); }
    forall c: nat ensures Get(u.modes, c) == LastMode(k, lines, c) { FileIsInTables(k, lines, c); }
    forall c: nat ensures Get(u.sels, c) == LoadedSel(k, lines, u0, c) { FileIsInTables(k, lines, c); }
  }

  /** Whatever valid states a replacing load of the file starts from, it leads to the same
      user selection of `c`. */
  ghost predicate SelectionForgotten(k: Kconfig, lines: seq<Line>, c: nat) {
    forall u1, u2, v1, v2 | ValidUser(k, u1) && ValidUser(k, u2)
      :: (Replaced(k, lines, u1, v1) && Replaced(k, lines, u2, v2)) ==> Get(v1.sels, c) == Get(v2.sels, c)
  }

  /** Two valid states that such a file does not make the same. */
  lemma TwoHistories(k: Kconfig, lines: seq<Line>, c: nat) returns (u1: User, u2: User, v1: User, v2: User)
    requires ChoicesOk(k) && OnlyM(k, lines, c)
    ensures ValidUser(k, u1) && ValidUser(k, u2) && Get(v1.sels, c) != Get(v2.sels, c)
    ensures Replaced(k, lines, u1, v1) && Replaced(k, lines, u2, v2)
  {
    FileIsInTables(k, lines, c);
    u1, u2 := NoUser, NoUser.(sels := map[c := k.Ch(c).syms[0]]);
    v1, v2 := LoadResult(k, lines, u1), LoadResult(k, lines, u2);
    LoadResultIs(k, lines, u1);
    LoadResultIs(k, lines, u2);
    OnlyMKeeps(k, lines, c, u1, u2, v1, v2);
  }

  /** The load forgets the user selection of a choice if and only if the file does not set
      only m on the choice. */
  lemma SelectionForgottenExactly(k: Kconfig, lines: seq<Line>, c: nat)
    requires ChoicesOk(k)
    ensures SelectionForgotten(k, lines, c) <==> !OnlyM(k, lines, c)
  {
    if OnlyM(k, lines, c) {
      var u1, u2, v1, v2 := TwoHistories(k, lines, c);
    } else {
      forall u1, u2, v1, v2 | Replaced(k, lines, u1, v1) && Replaced(k, lines, u2, v2)
        ensures Get(v1.sels, c) == Get(v2.sels, c)
      {
        LoadForgets(k, lines, u1, u2, v1, v2);
      }
    }
  }

  // ----- The loader -----

  /** The user state after one line. */
  function ApplyLine(k: Kconfig, u: User, line: Line): User {
    var a := Assigned(k, line);
    if a.None? then u
    else
      var c := ModeSet(k, a.value);
      WithValue(k, if c.Some? then WithMode(k, u, c.value, a.value.v.t) else u, a.value.s, a.value.v)
  }

  lemma AssignedNormal(k: Kconfig, line: Line)
    ensures var a := Assigned(k, line); a.Some? ==>
      a.value.s < |k.symbols| && Acceptable(k, a.value.s, a.value.v) && Normalize(k, a.value.s, a.value.v) == a.value.v
  {
  }

  /** Symbols and choices that a line marks with _was_set. */
  function SymsMarked(k: Kconfig, line: Line): set<nat> {
    var a := Assigned(k, line);
    if a.Some? then {a.value.s} else {}
  }

  function ChoicesMarked(k: Kconfig, line: Line): set<nat> {
    var a := Assigned(k, line);
    if a.Some? && ModeSet(k, a.value).Some?
       && (ModeAcceptable(k, ModeSet(k, a.value).value, a.value.v.t) || a.value.v.t == 2)
    then {ModeSet(k, a.value).value} else {}
  }

  /** The part of _load_config() that handles one line. */
  method LoadLine(kc: Kconf, line: Line)
    requires kc.Valid()
    modifies kc`user, kc`cache, kc`symsSet, kc`choicesSet
    ensures kc.Valid()
    ensures kc.user == ApplyLine(kc.k, old(kc.user), line)
    ensures kc.symsSet == old(kc.symsSet) + SymsMarked(kc.k, line)
    ensures kc.choicesSet == old(kc.choicesSet) + ChoicesMarked(kc.k, line)
  {
    var a := Assigned(kc.k, line);
    AssignedNormal(kc.k, line);
    if a.None? { return; }
    var c := ModeSet(kc.k, a.value);
    if c.Some? {
      assert a.value.s in kc.k.Ch(c.value).syms;
      var _ := kc.SetMode(c.value, a.value.v.t);
    }
    var _ := kc.SetValue(a.value.s, a.value.v);
  }

  lemma LineMerges(k: Kconfig, lines: seq<Line>, line: Line, u0: User, u: User)
    requires Merged(k, lines, u0, u)
    ensures Merged(k, lines + [line], u0, ApplyLine(k, u, line))
  {
    var all, u', a := lines + [line], ApplyLine(k, u, line), Assigned(k, line);
    AssignedNormal(k, line);
    ApplyLineAt(k, u, line);
    assert all[..|lines|] == lines && all[|lines|] == line;
    forall s: nat ensures Get(u'.vals, s) == OrElse(LastVal(k, all, s), Get(u0.vals, s)) {}
    forall c: nat ensures Get(u'.modes, c) == OrElse(LastMode(k, all, c), Get(u0.modes, c)) {}
    forall c: nat ensures Get(u'.sels, c) == OrElse(LastSel(k, all, c), Get(u0.sels, c)) {}
  }

  lemma ApplyLineAt(k: Kconfig, u: User, line: Line)
    ensures var u', a := ApplyLine(k, u, line), Assigned(k, line);
      && (forall s: nat :: Get(u'.vals, s) == if a.Some? && a.value.s == s then Some(a.value.v) else Get(u.vals, s))
      && (forall c: nat :: Get(u'.modes, c) ==
            if a.Some? && ModeSet(k, a.value) == Some(c) && ModeAcceptable(k, c, a.value.v.t) then Some(a.value.v.t)
            else Get(u.modes, c))
      && (forall c: nat :: Get(u'.sels, c) ==
            if a.Some? && a.value.v == Level(2) && k.Sym(a.value.s).choice == Some(c) then Some(a.value.s)
            else Get(u.sels, c))
  {
    AssignedNormal(k, line);
    var a := Assigned(k, line);
    if a.Some? {
      var c := ModeSet(k, a.value);
      var u1 := if c.Some? then WithMode(k, u, c.value, a.value.v.t) else u;
      ValueSet(k, u1, a.value);
      ModeSetAt(k, u, a.value);
    }
  }

  lemma ValueSet(k: Kconfig, u: User, a: Assignment)
    requires Acceptable(k, a.s, a.v) && Normalize(k, a.s, a.v) == a.v
    ensures var u' := WithValue(k, u, a.s, a.v);
      && u'.modes == u.modes && u'.vals == u.vals[a.s := a.v]
      && u'.sels ==
         if a.v == Level(2) && k.Sym(a.s).choice.Some? then u.sels[k.Sym(a.s).choice.value := a.s] else u.sels
  {
  }

  lemma ModeSetAt(k: Kconfig, u: User, a: Assignment)
    requires Acceptable(k, a.s, a.v)
    ensures var c := ModeSet(k, a); c.Some? ==>
      var u' := WithMode(k, u, c.value, a.v.t);
      && u'.vals == u.vals && u'.sels == u.sels
      && u'.modes == if ModeAcceptable(k, c.value, a.v.t) then u.modes[c.value := a.v.t] else u.modes
  {
  }

  /** Exactly the symbols and choices that the lines set are marked. */
  ghost predicate Marked(k: Kconfig, lines: seq<Line>, syms: set<nat>, choices: set<nat>) {
    && (forall s: nat :: s in syms <==> LastVal(k, lines, s).Some?)
    && (forall c: nat :: c in choices <==> LastMode(k, lines, c).Some? || LastSel(k, lines, c).Some?)
  }

  lemma LineMarks(k: Kconfig, lines: seq<Line>, line: Line, syms: set<nat>, choices: set<nat>)
    requires Marked(k, lines, syms, choices)
    ensures Marked(k, lines + [line], syms + SymsMarked(k, line), choices + ChoicesMarked(k, line))
  {
    AssignedNormal(k, line);
    assert (lines + [line])[..|lines|] == lines;
  }

  /** Kconfig._load_config().  With `replace` the old user state is replaced by what the
      file says, although nothing is unset until all lines have been read. */
  method LoadConfig(kc: Kconf, lines: seq<Line>, replace: bool)
    requires kc.Valid()
    modifies kc`user, kc`cache, kc`symsSet, kc`choicesSet
    ensures kc.Valid()
    ensures !replace ==> Merged(kc.k, lines, old(kc.user), kc.user)
    ensures replace ==> Replaced(kc.k, lines, old(kc.user), kc.user)
  {
    ghost var u0 := kc.user;
    if replace {
      kc.symsSet, kc.choicesSet := {}, {};
    }
    for i := 0 to |lines|
      invariant kc.Valid()
      invariant Merged(kc.k, lines[..i], u0, kc.user)
      invariant replace ==> Marked(kc.k, lines[..i], kc.symsSet, kc.choicesSet)
    {
      LineMerges(kc.k, lines[..i], lines[i], u0, kc.user);
      if replace { LineMarks(kc.k, lines[..i], lines[i], kc.symsSet, kc.choicesSet); }
      assert lines[..i] + [lines[i]] == lines[..i + 1];
      LoadLine(kc, lines[i]);
    }
    assert lines[..|lines|] == lines;
    if replace {
      ghost var u1 := kc.user;
      UnsetUnmarked(kc);
      UnsetReplaces(kc.k, lines, u0, u1, kc.user, kc.symsSet, kc.choicesSet);
    }
  }

  /** The user state of `u` without the unmarked symbols and choices. */
  ghost predicate OnlyMarked(k: Kconfig, u: User, u': User, syms: set<nat>, choices: set<nat>) {
    && (forall s: nat :: Get(u'.vals, s) == if s in syms then Get(u.vals, s) else None)
    && (forall c: nat :: Get(u'.modes, c) == if c in choices then Get(u.modes, c) else None)
    && (forall c: nat :: Get(u'.sels, c) == if c in choices then Get(u.sels, c) else None)
  }

  method UnsetUnmarked(kc: Kconf)
    requires kc.Valid()
    modifies kc`user, kc`cache
    ensures kc.Valid() && OnlyMarked(kc.k, old(kc.user), kc.user, kc.symsSet, kc.choicesSet)
  {
    OutOfTableUnset(kc.k, kc.user);
    UnsetSymbols(kc);
    UnsetChoices(kc);
  }

  method UnsetSymbols(kc: Kconf)
    requires kc.Valid()
    modifies kc`user, kc`cache
    ensures kc.Valid() && kc.user.modes == old(kc.user.modes) && kc.user.sels == old(kc.user.sels)
    ensures forall x: nat :: Get(kc.user.vals, x) ==
              if x in kc.symsSet || x >= |kc.k.symbols| then Get(old(kc.user.vals), x) else None
  {
    for s := 0 to |kc.k.symbols|
      invariant kc.Valid() && kc.user.modes == old(kc.user.modes) && kc.user.sels == old(kc.user.sels)
      invariant forall x: nat :: Get(kc.user.vals, x) ==
                  if x in kc.symsSet || x >= s then Get(old(kc.user.vals), x) else None
    {
      if s !in kc.symsSet {
        kc.UnsetValue(s);
      }
    }
  }

  /** `u'` is `u` with all choices below `n` unset, except the marked ones. */
  ghost predicate ChoicesUnset(u: User, u': User, marked: set<nat>, n: nat) {
    && u'.vals == u.vals
    && (forall x: nat :: Get(u'.modes, x) == if x in marked || x >= n then Get(u.modes, x) else None)
    && (forall x: nat :: Get(u'.sels, x) == if x in marked || x >= n then Get(u.sels, x) else None)
  }

  lemma UnsetNextChoice(u: User, u': User, marked: set<nat>, n: nat)
    requires ChoicesUnset(u, u', marked, n)
    ensures ChoicesUnset(u, if n in marked then u' else WithoutMode(u', n), marked, n + 1)
  {
  }

  method UnsetChoices(kc: Kconf)
    requires kc.Valid()
    modifies kc`user, kc`cache
    ensures kc.Valid() && ChoicesUnset(old(kc.user), kc.user, kc.choicesSet, |kc.k.choices|)
  {
    for c := 0 to |kc.k.choices|
      invariant kc.Valid() && ChoicesUnset(old(kc.user), kc.user, kc.choicesSet, c)
    {
      UnsetNextChoice(old(kc.user), kc.user, kc.choicesSet, c);
      if c !in kc.choicesSet {
        kc.UnsetMode(c);
      }
    }
  }

  /** Undefined symbols and choices never have user values. */
  lemma OutOfTableUnset(k: Kconfig, u: User)
    requires ValidUser(k, u)
    ensures forall s: nat :: s >= |k.symbols| ==> Get(u.vals, s) == None
    ensures forall c: nat :: c >= |k.choices| ==> Get(u.modes, c) == None && Get(u.sels, c) == None
  {
    assert forall s: nat :: s in u.vals ==> Acceptable(k, s, u.vals[s]);
    assert forall c: nat :: c in u.modes ==> ModeAcceptable(k, c, u.modes[c]);
    assert forall c: nat :: c in u.sels ==> u.sels[c] in k.Ch(c).syms;
  }

  lemma UnsetReplaces(k: Kconfig, lines: seq<Line>, u0: User, u1: User, u: User, syms: set<nat>, choices: set<nat>)
    requires Merged(k, lines, u0, u1) && Marked(k, lines, syms, choices)
    requires ValidUser(k, u0) && OnlyMarked(k, u1, u, syms, choices)
    ensures Replaced(k, lines, u0, u)
  {
    forall c: nat ensures Get(u.modes, c) == LastMode(k, lines, c) {
      SelectionSetsMode(k, lines, c);
      assert Get(u0.modes, c).Some? ==> ModeAcceptable(k, c, u0.modes[c]);
    }
  }

  /** A file that sets a choice symbol to y also gives the choice a mode, unless the choice
      has a type that cannot have one. */
  lemma {:induction false} SelectionSetsMode(k: Kconfig, lines: seq<Line>, c: nat)
    ensures LastSel(k, lines, c).Some? ==> LastMode(k, lines, c).Some? || !BoolTristate(k.Ch(c).origType)
  {
    if lines != [] { SelectionSetsMode(k, lines[..|lines| - 1], c); }
  }
}

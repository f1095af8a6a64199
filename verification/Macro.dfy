/**
  The preprocessor: expansion of $(name,arg,...) in place, in a string that changes while
  it is being scanned, with a bound on how often a function may be re-entered.
 */
module Macro {
  import opened Model
  import Strings

  datatype Result<+T> = Ok(value: T) | Err

  /** Built-in and user-defined functions are opaque; Err stands for an exception. */
  datatype Builtin = Builtin(minArg: nat, maxArg: Option<nat>, call: seq<string> -> Result<string>)

  /** `vars` has the values of the preprocessor variables; `parseInt` is int(s). */
  datatype Env = Env(
    vars: map<string, string>,
    functions: map<string, Builtin>,
    environ: map<string, string>,
    parseInt: string -> Option<int>)

  /** Variable._n_expansions, for every variable. */
  type Counts = map<string, nat>

  function Count(c: Counts, v: string): nat { if v in c then c[v] else 0 }

  /** The expansions that are still possible: one pair for each, at most 101 per variable. */
  ghost function Budget(env: Env, c: Counts): set<(string, nat)> {
    set v, j | v in env.vars && j in seq(101, i => i) && Count(c, v) <= j :: (v, j)
  }

  lemma BudgetShrinks(env: Env, c: Counts, v: string)
    requires v in env.vars && Count(c, v) <= 100
    ensures Budget(env, c[v := Count(c, v) + 1]) < Budget(env, c)
  {
    var i := Count(c, v);
    assert seq(101, i => i)[i] == i;
    assert (v, i) in Budget(env, c) && (v, i) !in Budget(env, c[v := i + 1]);
  }

  predicate CallAt(s: string, i: nat) { i + 2 <= |s| && s[i] == '$' && s[i + 1] == '(' }

  /** Python's args[n], which counts from the end for negative n. */
  function Index(args: seq<string>, n: Option<int>): Option<string> {
    if n.None? then None
    else if 0 <= n.value < |args| then Some(args[n.value])
    else if -|args| <= n.value < 0 then Some(args[|args| + n.value])
    else None
  }

  predicate ArgsOk(f: Builtin, n: nat) { f.minArg <= n && (f.maxArg.Some? ==> n <= f.maxArg.value) }

  /** The conditions under which a variable may not be expanded (again). */
  predicate Stuck(c: Counts, args: seq<string>)
    requires |args| > 0
  {
    if |args| == 1 then Count(c, args[0]) != 0 else Count(c, args[0]) > 100
  }

  // ----- What expansion means -----

  // These functions read their string once from left to right.  Text that came out of an
  // expansion goes to the result and is never looked at again.

  /** All of `s` expanded; `args` are the arguments that $(1), $(2), ... stand for. */
  ghost function Whole(env: Env, c: Counts, args: seq<string>, s: string): Result<string>
    decreases Budget(env, c), |s|, 1
  {
    if s == "" then Ok("")
    else if CallAt(s, 0) then
      match Call(env, c, args, s[2..], [], "", 0)
      case Err => Err
      case Ok((v, rest)) => Prepend(v, Whole(env, c, args, rest))
    else Prepend(s[..1], Whole(env, c, args, s[1..]))
  }

  function Prepend(v: string, r: Result<string>): Result<string> { if r.Ok? then Ok(v + r.value) else Err }

  /** A call whose arguments continue with `s`: its value, and what comes after it.  `done`
      are the arguments so far, `arg` is the current one up to here. */
  ghost function Call(env: Env, c: Counts, args: seq<string>, s: string, done: seq<string>, arg: string, nesting: nat)
    : (r: Result<(string, string)>)
    ensures r.Ok? ==> |r.value.1| < |s|
    decreases Budget(env, c), |s|, 0
  {
    if s == "" then Err
    else if CallAt(s, 0) then
      match Call(env, c, args, s[2..], [], "", 0)
      case Err => Err
      case Ok((v, rest)) => Call(env, c, args, rest, done, arg + v, nesting)
    else if s[0] == '(' then Call(env, c, args, s[1..], done, arg + s[..1], nesting + 1)
    else if s[0] == ')' && nesting > 0 then Call(env, c, args, s[1..], done, arg + s[..1], nesting - 1)
    else if s[0] == ')' then
      match Apply(env, c, args, done + [arg])
      case Err => Err
      case Ok(v) => Ok((v, s[1..]))
    else if s[0] == ',' && nesting == 0 then Call(env, c, args, s[1..], done + [arg], "", nesting)
    else Call(env, c, args, s[1..], done, arg + s[..1], nesting)
  }

  /** The value of a call with these arguments, the first of which is the name. */
  ghost function Apply(env: Env, c: Counts, args: seq<string>, call: seq<string>): Result<string>
    requires |call| > 0
    decreases Budget(env, c), 0, 1
  {
    var arg := Index(args, env.parseInt(call[0]));
    if arg.Some? then Ok(arg.value) else FnVal(env, c, call)
  }

  ghost function FnVal(env: Env, c: Counts, call: seq<string>): Result<string>
    requires |call| > 0
    decreases Budget(env, c), 0, 0
  {
    var fn := call[0];
    if fn in env.vars then
      if Stuck(c, call) then Err
      else
        BudgetShrinks(env, c, fn);
        Whole(env, c[fn := Count(c, fn) + 1], call, env.vars[fn])
    else if fn in env.functions then
      if ArgsOk(env.functions[fn], |call| - 1) then env.functions[fn].call(call) else Err
    else if fn in env.environ then Ok(env.environ[fn])
    else Ok("")
  }

  /** A string literal after its opening quote: its value, and what comes after it. */
  ghost function Literal(env: Env, c: Counts, quote: char, s: string): (r: Result<(string, string)>)
    decreases |s|
  {
    if s == "" then Err
    else if s[0] == quote then Ok(("", s[1..]))
    else if s[0] == '\\' then (if |s| == 1 then Err else PrependTo(s[1..2], Literal(env, c, quote, s[2..])))
    else if CallAt(s, 0) then
      match Call(env, c, [], s[2..], [], "", 0)
      case Err => Err
      case Ok((v, rest)) => PrependTo(v, Literal(env, c, quote, rest))
    else PrependTo(s[..1], Literal(env, c, quote, s[1..]))
  }

  function PrependTo(v: string, r: Result<(string, string)>): Result<(string, string)> {
    if r.Ok? then Ok((v + r.value.0, r.value.1)) else Err
  }

  // ----- Searching -----

  predicate MacroSpecial(s: string, i: nat)
    requires i < |s|
  {
    s[i] == '(' || s[i] == ')' || s[i] == ',' || CallAt(s, i)
  }

  predicate StringSpecial(s: string, i: nat)
    requires i < |s|
  {
    s[i] == '"' || s[i] == '\'' || s[i] == '\\' || CallAt(s, i)
  }

  /** There is nothing special between `i` and `p` for a literal in these quotes. */
  ghost predicate Ordinary(s: string, i: nat, p: nat, quote: char)
    requires i <= p <= |s|
  {
    forall j :: i <= j < p ==> s[j] != quote && s[j] != '\\' && !CallAt(s, j)
  }

  /** The first place from `i` on where one of the special strings is; |s| if there is none. */
  method FindCall(s: string, i: nat) returns (p: nat)
    requires i <= |s|
    ensures i <= p <= |s| && (forall j :: i <= j < p ==> !CallAt(s, j)) && (p < |s| ==> CallAt(s, p))
  {
    p := i;
    while p < |s| && !CallAt(s, p)
      invariant i <= p <= |s| && forall j :: i <= j < p ==> !CallAt(s, j)
    {
      p := p + 1;
    }
  }

  method FindMacroSpecial(s: string, i: nat) returns (p: nat)
    requires i <= |s|
    ensures i <= p <= |s| && (forall j :: i <= j < p ==> !MacroSpecial(s, j)) && (p < |s| ==> MacroSpecial(s, p))
  {
    p := i;
    while p < |s| && !MacroSpecial(s, p)
      invariant i <= p <= |s| && forall j :: i <= j < p ==> !MacroSpecial(s, j)
    {
      p := p + 1;
    }
  }

  method FindStringSpecial(s: string, i: nat) returns (p: nat)
    requires i <= |s|
    ensures i <= p <= |s| && Ordinary(s, i, p, '"') && Ordinary(s, i, p, '\'') && (p < |s| ==> StringSpecial(s, p))
  {
    p := i;
    while p < |s| && !StringSpecial(s, p)
      invariant i <= p <= |s| && Ordinary(s, i, p, '"') && Ordinary(s, i, p, '\'')
    {
      p := p + 1;
    }
  }

  method FindQuote(s: string, i: nat, quote: char) returns (p: nat)
    requires i <= |s|
    ensures i <= p <= |s| && quote !in s[i..p] && (p < |s| ==> s[p] == quote)
  {
    p := i;
    while p < |s| && s[p] != quote
      invariant i <= p <= |s| && quote !in s[i..p]
    {
      p := p + 1;
    }
  }

  // ----- Skipping ordinary text -----

  lemma {:induction false} SkipWhole(env: Env, c: Counts, args: seq<string>, s: string, i: nat, p: nat)
    requires i <= p <= |s| && forall j :: i <= j < p ==> !CallAt(s, j)
    ensures Whole(env, c, args, s[i..]) == Prepend(s[i..p], Whole(env, c, args, s[p..]))
    decreases p - i
  {
    if i < p {
      SkipWhole(env, c, args, s, i + 1, p);
      assert s[i..][1..] == s[i + 1..] && s[i..][..1] + s[i + 1..p] == s[i..p];
      assert CallAt(s[i..], 0) == CallAt(s, i);
      PrependTwice(s[i..][..1], s[i + 1..p], Whole(env, c, args, s[p..]));
    } else {
      assert s[i..p] == "";
      var r := Whole(env, c, args, s[p..]);
      if r.Ok? { assert "" + r.value == r.value; }
    }
  }

  lemma {:induction false} SkipCall(env: Env, c: Counts, args: seq<string>, s: string, done: seq<string>, arg: string,
                                    nesting: nat, i: nat, p: nat)
    requires i <= p <= |s| && forall j :: i <= j < p ==> !MacroSpecial(s, j)
    ensures Call(env, c, args, s[i..], done, arg, nesting) == Call(env, c, args, s[p..], done, arg + s[i..p], nesting)
    decreases p - i
  {
    if i < p {
      var arg' := arg + s[i..][..1];
      SkipCall(env, c, args, s, done, arg', nesting, i + 1, p);
      assert s[i..][1..] == s[i + 1..] && arg' + s[i + 1..p] == arg + s[i..p];
      assert CallAt(s[i..], 0) == CallAt(s, i) && s[i..][0] == s[i] && !MacroSpecial(s, i);
    } else {
      assert arg + s[i..p] == arg;
    }
  }

  lemma {:induction false} SkipLiteral(env: Env, c: Counts, quote: char, s: string, i: nat, p: nat)
    requires i <= p <= |s| && Ordinary(s, i, p, quote)
    ensures Literal(env, c, quote, s[i..]) == PrependTo(s[i..p], Literal(env, c, quote, s[p..]))
    decreases p - i
  {
    if i < p {
      SkipLiteral(env, c, quote, s, i + 1, p);
      assert s[i..][1..] == s[i + 1..] && s[i..][..1] + s[i + 1..p] == s[i..p];
      assert CallAt(s[i..], 0) == CallAt(s, i) && s[i..][0] == s[i];
      PrependToTwice(s[i..][..1], s[i + 1..p], Literal(env, c, quote, s[p..]));
    } else {
      assert s[i..p] == "";
      var r := Literal(env, c, quote, s[p..]);
      if r.Ok? { assert "" + r.value.0 == r.value.0; }
    }
  }

  lemma PrependTwice(a: string, b: string, r: Result<string>)
    ensures Prepend(a, Prepend(b, r)) == Prepend(a + b, r)
  {
    if r.Ok? { assert a + (b + r.value) == a + b + r.value; }
  }

  lemma PrependToTwice(a: string, b: string, r: Result<(string, string)>)
    ensures PrependTo(a, PrependTo(b, r)) == PrependTo(a + b, r)
  {
    if r.Ok? { assert a + (b + r.value.0) == a + b + r.value.0; }
  }

  // ----- Expansion in place -----

  /** Text without $ is left alone. */
  ghost predicate OnlyDollars(f: string -> string) { forall v :: '$' !in v ==> f(v) == v }

  /** The token, and the line after it, are what the literal means. */
  ghost predicate TokenIs(meaning: Result<(string, string)>, f: string -> string, r: Result<(string, string, nat)>) {
    match meaning
    case Err => r.Err?
    case Ok((v, rest)) =>
      r.Ok? && r.value.0 == f(v) && r.value.2 <= |r.value.1| && r.value.1[r.value.2..] == rest
  }

  class Preprocessor {
    const env: Env
    var counts: Counts

    constructor (env: Env)
      ensures this.env == env && counts == map v | v in env.vars :: 0
    {
      this.env, counts := env, map v | v in env.vars :: 0;
    }

    ghost predicate Valid()
      reads this
    {
      forall v :: v in env.vars ==> v in counts
    }

    /** _expand_whole() */
    method ExpandWhole(text: string, args: seq<string>) returns (r: Result<string>)
      requires Valid()
      modifies this
      ensures r == Whole(env, old(counts), args, text)
      ensures r.Ok? ==> counts == old(counts)
      decreases Budget(env, counts), |text|, 1
    {
      var s: string, i: nat := text, 0;
      ghost var meaning := Whole(env, counts, args, text);
      Nothing(env, counts, args, text);
      while true
        invariant i <= |s| && |s| - i <= |text| && counts == old(counts)
        invariant meaning == Prepend(s[..i], Whole(env, counts, args, s[i..]))
        decreases |s| - i
      {
        var p := FindCall(s, i);
        SkipWhole(env, counts, args, s, i, p);
        PrependTwice(s[..i], s[i..p], Whole(env, counts, args, s[p..]));
        assert s[..i] + s[i..p] == s[..p];
        if p == |s| {
          assert s[..p] == s && s[p..] == "" && s + "" == s;
          return Ok(s);
        }
        var x := ExpandMacro(s, p, args);
        if x.Err? {
          return Err;
        }
        AfterCall(env, counts, args, s, p, x.value.0, x.value.1);
        s, i := x.value.0, x.value.1;
      }
    }

    /** What _expand_macro() returns: the string with the call replaced by its value, and the
        index after the value. */
    ghost predicate Replaced(s: string, i: nat, meaning: Result<(string, string)>, r: Result<(string, nat)>)
      requires i <= |s|
    {
      match meaning
      case Err => r.Err?
      case Ok((v, rest)) => r == Ok((s[..i] + v + rest, i + |v|))
    }

    /** _expand_macro() */
    method ExpandMacro(text: string, at: nat, args: seq<string>) returns (r: Result<(string, nat)>)
      requires Valid() && CallAt(text, at)
      modifies this
      ensures Replaced(text, at, Call(env, old(counts), args, text[at + 2..], [], "", 0), r)
      ensures r.Ok? ==> counts == old(counts)
      decreases Budget(env, counts), |text| - at, 0
    {
      var res := text[..at];
      var s, i := text, at + 2;
      var argStart, newArgs, nesting := i, [], 0;
      ghost var meaning := Call(env, counts, args, text[at + 2..], [], "", 0);
      assert s[argStart..i] == "";
      while true
        invariant argStart <= i <= |s| && |s| - i < |text| - at && counts == old(counts)
        invariant meaning == Call(env, counts, args, s[i..], newArgs, s[argStart..i], nesting)
        decreases |s| - i
      {
        var p := FindMacroSpecial(s, i);
        SkipCall(env, counts, args, s, newArgs, s[argStart..i], nesting, i, p);
        assert s[argStart..i] + s[i..p] == s[argStart..p];
        if p == |s| {
          return Err;
        }
        OneStep(s, argStart, p);
        if s[p] == '(' {
          nesting := nesting + 1;
          i := p + 1;
        } else if s[p] == ')' {
          i := p + 1;
          if nesting > 0 {
            nesting := nesting - 1;
            continue;
          }
          newArgs := newArgs + [s[argStart..p]];
          var arg := Index(args, env.parseInt(newArgs[0]));
          var v := Ok("");
          if arg.Some? {
            v := Ok(arg.value);
          } else {
            v := FunctionValue(newArgs);
          }
          if v.Err? {
            return Err;
          }
          res := res + v.value;
          return Ok((res + s[i..], |res|));
        } else if s[p] == ',' {
          i := p + 1;
          if nesting > 0 {
            continue;
          }
          newArgs := newArgs + [s[argStart..p]];
          argStart := i;
        } else {
          var x := ExpandMacro(s, p, args);
          if x.Err? {
            return Err;
          }
          AfterNested(env, counts, args, s, argStart, p, x.value.0, x.value.1);
          s, i := x.value.0, x.value.1;
        }
      }
    }

    /** The lexer at a quote: the value of the literal, the line, and the index after it.
        `expandVars` stands for the replacement of $NAME and ${NAME} in the value. */
    method StringToken(text: string, at: nat, expandVars: string -> string) returns (r: Result<(string, string, nat)>)
      requires Valid() && at < |text| && (text[at] == '"' || text[at] == '\'')
      requires OnlyDollars(expandVars)
      modifies this
      ensures TokenIs(Literal(env, old(counts), text[at], text[at + 1..]), expandVars, r)
      ensures r.Ok? ==> counts == old(counts)
    {
      if '$' !in text && '\\' !in text {
        var end := FindQuote(text, at + 1, text[at]);
        FastToken(env, counts, text, at, end, expandVars);
        if end == |text| {
          return Err;
        }
        return Ok((text[at + 1..end], text, end + 1));
      }
      var x := ExpandStr(text, at);
      if x.Err? {
        return Err;
      }
      var (s, i) := x.value;
      ghost var meaning := Literal(env, old(counts), text[at], text[at + 1..]);
      SlowToken(text[..at + 1], text[at], meaning, expandVars, s, i);
      r := Ok((expandVars(s[at + 1..i - 1]), s, i));
    }

    /** _expand_str() */
    method ExpandStr(text: string, at: nat) returns (r: Result<(string, nat)>)
      requires Valid() && at < |text| && (text[at] == '"' || text[at] == '\'')
      modifies this
      ensures match Literal(env, old(counts), text[at], text[at + 1..])
        case Err => r.Err?
        case Ok((v, rest)) => r == Ok((text[..at + 1] + v + [text[at]] + rest, at + 1 + |v| + 1))
      ensures r.Ok? ==> counts == old(counts)
    {
      var quote := text[at];
      var s, i := text, at + 1;
      ghost var meaning := Literal(env, counts, quote, text[at + 1..]);
      NothingTo(env, counts, quote, text, at + 1);
      while true
        invariant at < i <= |s| && counts == old(counts) && s[..at + 1] == text[..at + 1]
        invariant Reading(env, counts, quote, s, at + 1, i, meaning)
        decreases |s| - i
      {
        var p := FindStringSpecial(s, i);
        LiteralSkips(env, counts, quote, s, at + 1, i, p, meaning);
        if p == |s| {
          return Err;
        }
        if s[p] == quote {
          EndOfLiteral(env, counts, quote, s, at, p);
          return Ok((s, p + 1));
        } else if s[p] == '"' || s[p] == '\'' {
          LiteralSkips(env, counts, quote, s, at + 1, i, i + 1, meaning);
          i := i + 1;
        } else {
          var x := ExpandSpecial(s, p, at + 1, quote, meaning);
          if x.Err? {
            return Err;
          }
          s, i := x.value.0, x.value.1;
        }
      }
    }

    /** A backslash or a macro call in a literal. */
    method ExpandSpecial(s: string, p: nat, ghost a: nat, quote: char, ghost meaning: Result<(string, string)>)
      returns (r: Result<(string, nat)>)
      requires Valid() && a <= p < |s| && StringSpecial(s, p) && s[p] != '"' && s[p] != '\''
      requires (quote == '"' || quote == '\'') && Reading(env, counts, quote, s, a, p, meaning)
      modifies this
      ensures r.Err? ==> meaning.Err?
      ensures r.Ok? ==>
        var (s', i) := r.value;
        && counts == old(counts) && p <= i <= |s'| && |s'| - i < |s| - p && s'[..a] == s[..a]
        && Reading(env, counts, quote, s', a, i, meaning)
    {
      if s[p] == '\\' {
        var i := p + 1;
        if i == |s| {
          OneStep(s, a, p);
          return Err;
        }
        Unescaped(env, counts, quote, s, a, p);
        return Ok((s[..p] + s[i..], i));
      }
      OneStep(s, a, p);
      r := ExpandMacro(s, p, []);
      if r.Ok? {
        AfterCallInLiteral(env, counts, quote, s, a, p, r.value.0, r.value.1);
      }
    }

    /** _fn_val() */
    method FunctionValue(args: seq<string>) returns (r: Result<string>)
      requires Valid() && |args| > 0
      modifies this
      ensures r == FnVal(env, old(counts), args)
      ensures r.Ok? ==> counts == old(counts)
      decreases Budget(env, counts), 0, 0
    {
      var fn := args[0];
      if fn in env.vars {
        if |args| == 1 {
          if counts[fn] != 0 {
            return Err;
          }
        } else if counts[fn] > 100 {
          return Err;
        }
        BudgetShrinks(env, counts, fn);
        counts := counts[fn := counts[fn] + 1];
        r := ExpandWhole(env.vars[fn], args);
        if r.Ok? {
          counts := counts[fn := counts[fn] - 1];
        }
      } else if fn in env.functions {
        var f := env.functions[fn];
        r := if ArgsOk(f, |args| - 1) then f.call(args) else Err;
      } else {
        r := Ok(if fn in env.environ then env.environ[fn] else "");
      }
    }
  }

  lemma Nothing(env: Env, c: Counts, args: seq<string>, s: string)
    ensures Whole(env, c, args, s) == Prepend(s[..0], Whole(env, c, args, s[0..]))
  {
    assert s[0..] == s;
    var r := Whole(env, c, args, s);
    if r.Ok? { assert s[..0] + r.value == r.value; }
  }

  lemma OneStep(s: string, a: nat, p: nat)
    requires a <= p < |s|
    ensures s[p..][1..] == s[p + 1..] && s[a..p] + s[p..][..1] == s[a..p + 1] && s[p..][0] == s[p]
    ensures CallAt(s[p..], 0) == CallAt(s, p) && s[p..] != "" && s[p + 1..p + 1] == ""
    ensures CallAt(s, p) ==> s[p..][2..] == s[p + 2..]
  {
  }

  /** The text before a call stays, and so does the text after it. */
  lemma AfterCall(env: Env, c: Counts, args: seq<string>, s: string, p: nat, s': string, i: nat)
    requires CallAt(s, p)
    requires var x := Call(env, c, args, s[p + 2..], [], "", 0);
      x.Ok? && s' == s[..p] + x.value.0 + x.value.1 && i == p + |x.value.0|
    ensures i <= |s'| && |s'| - i < |s| - p
    ensures Prepend(s[..p], Whole(env, c, args, s[p..])) == Prepend(s'[..i], Whole(env, c, args, s'[i..]))
  {
    var x := Call(env, c, args, s[p + 2..], [], "", 0).value;
    OneStep(s, p, p);
    assert s'[..i] == s[..p] + x.0 && s'[i..] == x.1;
    PrependTwice(s[..p], x.0, Whole(env, c, args, x.1));
  }

  lemma AfterNested(env: Env, c: Counts, args: seq<string>, s: string, a: nat, p: nat, s': string, i: nat)
    requires CallAt(s, p) && a <= p
    requires var x := Call(env, c, args, s[p + 2..], [], "", 0);
      x.Ok? && s' == s[..p] + x.value.0 + x.value.1 && i == p + |x.value.0|
    ensures i <= |s'| && |s'| - i < |s| - p
    ensures forall done, nesting: nat ::
      Call(env, c, args, s[p..], done, s[a..p], nesting) == Call(env, c, args, s'[i..], done, s'[a..i], nesting)
  {
    var x := Call(env, c, args, s[p + 2..], [], "", 0).value;
    OneStep(s, a, p);
    assert s'[i..] == x.1 && s'[a..i] == s[a..p] + x.0;
  }

  // ----- Steps of the loop over a string literal -----

  lemma NothingTo(env: Env, c: Counts, quote: char, s: string, a: nat)
    requires a <= |s|
    ensures Literal(env, c, quote, s[a..]) == PrependTo(s[a..a], Literal(env, c, quote, s[a..]))
  {
    var r := Literal(env, c, quote, s[a..]);
    if r.Ok? { assert s[a..a] + r.value.0 == r.value.0; }
  }

  /** The literal has been read from `a` to `i`. */
  ghost predicate Reading(env: Env, c: Counts, quote: char, s: string, a: nat, i: nat,
                          meaning: Result<(string, string)>)
    requires a <= i <= |s|
  {
    meaning == PrependTo(s[a..i], Literal(env, c, quote, s[i..]))
  }

  lemma LiteralSkips(env: Env, c: Counts, quote: char, s: string, a: nat, i: nat, p: nat,
                     meaning: Result<(string, string)>)
    requires a <= i <= p <= |s| && Ordinary(s, i, p, quote) && Reading(env, c, quote, s, a, i, meaning)
    ensures Reading(env, c, quote, s, a, p, meaning)
  {
    SkipLiteral(env, c, quote, s, i, p);
    PrependToTwice(s[a..i], s[i..p], Literal(env, c, quote, s[p..]));
    assert s[a..i] + s[i..p] == s[a..p];
  }

  lemma EndOfLiteral(env: Env, c: Counts, quote: char, s: string, at: nat, p: nat)
    requires at < p < |s| && s[p] == quote
    ensures PrependTo(s[at + 1..p], Literal(env, c, quote, s[p..])) == Ok((s[at + 1..p], s[p + 1..]))
    ensures s == s[..at + 1] + s[at + 1..p] + [quote] + s[p + 1..]
  {
    assert s[at + 1..p] + "" == s[at + 1..p];
  }

  lemma Unescaped(env: Env, c: Counts, quote: char, s: string, a: nat, p: nat)
    requires a <= p && p + 1 < |s| && s[p] == '\\' && quote != '\\'
    ensures var s' := s[..p] + s[p + 1..];
      && |s'| == |s| - 1 && s'[..a] == s[..a]
      && PrependTo(s[a..p], Literal(env, c, quote, s[p..]))
         == PrependTo(s'[a..p + 1], Literal(env, c, quote, s'[p + 1..]))
  {
    var s' := s[..p] + s[p + 1..];
    assert s[p..][1..2] == s[p + 1..p + 2] && s[p..][2..] == s[p + 2..] == s'[p + 1..];
    assert s'[a..p + 1] == s[a..p] + s[p + 1..p + 2];
    PrependToTwice(s[a..p], s[p + 1..p + 2], Literal(env, c, quote, s[p + 2..]));
  }

  lemma AfterCallInLiteral(env: Env, c: Counts, quote: char, s: string, a: nat, p: nat, s': string, i: nat)
    requires CallAt(s, p) && a <= p && s[p] != quote
    requires var x := Call(env, c, [], s[p + 2..], [], "", 0);
      x.Ok? && s' == s[..p] + x.value.0 + x.value.1 && i == p + |x.value.0|
    ensures p <= i <= |s'| && |s'| - i < |s| - p && s'[..a] == s[..a]
    ensures PrependTo(s[a..p], Literal(env, c, quote, s[p..])) == PrependTo(s'[a..i], Literal(env, c, quote, s'[i..]))
  {
    var x := Call(env, c, [], s[p + 2..], [], "", 0).value;
    OneStep(s, a, p);
    assert s'[a..i] == s[a..p] + x.0 && s'[i..] == x.1;
    PrependToTwice(s[a..p], x.0, Literal(env, c, quote, x.1));
  }

  // ----- Laws -----

  /** A call does not look beyond its closing parenthesis. */
  lemma {:induction false} CallExtends(env: Env, c: Counts, args: seq<string>, s: string, done: seq<string>,
                                       arg: string, nesting: nat, more: string)
    requires Call(env, c, args, s, done, arg, nesting).Ok?
    ensures var (v, rest) := Call(env, c, args, s, done, arg, nesting).value;
      Call(env, c, args, s + more, done, arg, nesting) == Ok((v, rest + more))
    decreases |s|
  {
    var t := s + more;
    if CallAt(s, 0) {
      assert t[2..] == s[2..] + more;
      CallExtends(env, c, args, s[2..], [], "", 0, more);
      var (v, rest) := Call(env, c, args, s[2..], [], "", 0).value;
      CallExtends(env, c, args, rest, done, arg + v, nesting, more);
    } else {
      assert t[1..] == s[1..] + more && t[..1] == s[..1];
      assert |s| == 1 ==> s[0] == ')' && nesting == 0 by {
        if |s| == 1 { assert s[1..] == ""; }
      }
      assert CallAt(t, 0) == CallAt(s, 0);
      if s[0] == '(' {
        CallExtends(env, c, args, s[1..], done, arg + s[..1], nesting + 1, more);
      } else if s[0] == ')' && nesting > 0 {
        CallExtends(env, c, args, s[1..], done, arg + s[..1], nesting - 1, more);
      } else if s[0] == ',' && nesting == 0 {
        CallExtends(env, c, args, s[1..], done + [arg], "", nesting, more);
      } else if s[0] != ')' {
        CallExtends(env, c, args, s[1..], done, arg + s[..1], nesting, more);
      }
    }
  }

  /** Expansion is compositional: nothing that one part expands to is combined with the
      other part into a new call, unless the parts were cut between $ and (. */
  lemma {:induction false} WholeConcat(env: Env, c: Counts, args: seq<string>, a: string, b: string)
    requires Whole(env, c, args, a).Ok?
    requires !(a != "" && a[|a| - 1] == '$' && b != "" && b[0] == '(')
    ensures Whole(env, c, args, a + b) == Prepend(Whole(env, c, args, a).value, Whole(env, c, args, b))
    decreases |a|
  {
    if a == "" {
      assert a + b == b;
      Nothing(env, c, args, b);
    } else if CallAt(a, 0) {
      var (v, rest) := Call(env, c, args, a[2..], [], "", 0).value;
      assert (a + b)[2..] == a[2..] + b;
      CallExtends(env, c, args, a[2..], [], "", 0, b);
      CallEnds(env, c, args, a[2..], [], "", 0);
      WholeConcat(env, c, args, rest, b);
      PrependTwice(v, Whole(env, c, args, rest).value, Whole(env, c, args, b));
    } else {
      assert (a + b)[1..] == a[1..] + b && (a + b)[..1] == a[..1];
      WholeConcat(env, c, args, a[1..], b);
      PrependTwice(a[..1], Whole(env, c, args, a[1..]).value, Whole(env, c, args, b));
    }
  }

  /** What comes after a call is the end of the string it was in. */
  lemma {:induction false} CallEnds(env: Env, c: Counts, args: seq<string>, s: string, done: seq<string>, arg: string,
                                    nesting: nat)
    requires Call(env, c, args, s, done, arg, nesting).Ok?
    ensures var rest := Call(env, c, args, s, done, arg, nesting).value.1; rest == s[|s| - |rest|..]
    decreases |s|
  {
    if CallAt(s, 0) {
      CallEnds(env, c, args, s[2..], [], "", 0);
      var (v, rest) := Call(env, c, args, s[2..], [], "", 0).value;
      CallEnds(env, c, args, rest, done, arg + v, nesting);
    } else if s[0] == '(' {
      CallEnds(env, c, args, s[1..], done, arg + s[..1], nesting + 1);
    } else if s[0] == ')' && nesting > 0 {
      CallEnds(env, c, args, s[1..], done, arg + s[..1], nesting - 1);
    } else if s[0] == ',' && nesting == 0 {
      CallEnds(env, c, args, s[1..], done + [arg], "", nesting);
    } else if s[0] != ')' {
      CallEnds(env, c, args, s[1..], done, arg + s[..1], nesting);
    }
  }

  /** A string literal with an escaped text without $ in it stands for that text. */
  lemma LiteralOfEscaped(env: Env, c: Counts, v: string, rest: string)
    requires '$' !in v
    ensures Literal(env, c, '"', Strings.Escape(v) + "\"" + rest) == Ok((v, rest))
  {
    Strings.EscapeIsMap(v);
    LiteralOfMapped(env, c, v, rest);
  }

  lemma {:induction false} LiteralOfMapped(env: Env, c: Counts, v: string, rest: string)
    requires '$' !in v
    ensures Literal(env, c, '"', Strings.EscapeMap(v) + "\"" + rest) == Ok((v, rest))
  {
    var t := Strings.EscapeMap(v) + "\"" + rest;
    if v == "" {
      assert t[1..] == rest;
    } else {
      var tail := Strings.EscapeMap(v[1..]) + "\"" + rest;
      LiteralOfMapped(env, c, v[1..], rest);
      assert t == Strings.EscapeChar(v[0]) + tail;
      assert v[..1] + v[1..] == v;
      if v[0] == '\\' || v[0] == '"' {
        assert t[1..2] == v[..1] && t[2..] == tail;
      } else {
        assert t[..1] == v[..1] && t[1..] == tail && t[0] == v[0];
      }
    }
  }

  /** Lines without $ and \: the text up to the next quote, as the lexer's fast path has it. */
  lemma FastLiteral(env: Env, c: Counts, quote: char, s: string, p: nat)
    requires '$' !in s && '\\' !in s && p <= |s| && (p < |s| ==> s[p] == quote) && quote !in s[..p]
    ensures Literal(env, c, quote, s) == if p < |s| then Ok((s[..p], s[p + 1..])) else Err
  {
    forall j | 0 <= j < p ensures s[j] != quote && s[j] != '\\' && !CallAt(s, j) {
      assert s[..p][j] == s[j] && s[j] in s;
    }
    SkipLiteral(env, c, quote, s, 0, p);
    assert s[0..] == s && s[0..p] == s[..p];
    if p < |s| { assert s[p..][1..] == s[p + 1..] && s[..p] + "" == s[..p]; }
  }

  lemma SlowToken(a: string, q: char, meaning: Result<(string, string)>, f: string -> string, s: string, i: nat)
    requires meaning.Ok? && s == a + meaning.value.0 + [q] + meaning.value.1 && i == |a| + |meaning.value.0| + 1
    ensures |a| < i <= |s| && TokenIs(meaning, f, Ok((f(s[|a|..i - 1]), s, i)))
  {
    assert s[|a|..i - 1] == meaning.value.0 && s[i..] == meaning.value.1;
  }

  lemma FastToken(env: Env, c: Counts, s: string, at: nat, end: nat, f: string -> string)
    requires OnlyDollars(f)
    requires '$' !in s && '\\' !in s && at < end <= |s| && (end < |s| ==> s[end] == s[at]) && s[at] !in s[at + 1..end]
    ensures TokenIs(Literal(env, c, s[at], s[at + 1..]), f, if end < |s| then Ok((s[at + 1..end], s, end + 1)) else Err)
  {
    var t, p := s[at + 1..], end - at - 1;
    assert t[..p] == s[at + 1..end] && (end < |s| ==> t[p + 1..] == s[end + 1..]);
    FastLiteral(env, c, s[at], t, p);
  }
}

/**
  What macro calls mean by their structure: a call is a list of arguments, and an argument is
  text with calls in it.  The scanner, which only counts parentheses, takes a call apart into
  exactly these arguments, whatever commas and parentheses the values of inner calls contain.
 */
module MacroMeaning {
  import opened Model
  import opened Macro

  /** An argument: text, or text followed by a call and the rest of the argument. */
  datatype Arg = End(text: string) | Sub(text: string, call: Args, rest: Arg)

  /** What is between the parentheses of a call; the first argument is the name. */
  datatype Args = Last(arg: Arg) | More(arg: Arg, others: Args)

  // ----- How calls are written -----

  function ArgText(a: Arg): string {
    match a
    case End(t) => t
    case Sub(t, call, rest) => t + "$(" + ArgsText(call) + ")" + ArgText(rest)
  }

  function ArgsText(l: Args): string {
    match l case Last(a) => ArgText(a) case More(a, others) => ArgText(a) + "," + ArgsText(others)
  }

  predicate NoCall(t: string) { forall i: nat :: i < |t| ==> !CallAt(t, i) }

  /** The number of open parentheses after the text, if there are `d` before it.  None if it
      closes one that is not open, or has a comma where none is open. */
  function Depth(t: string, d: nat): Option<nat> {
    if t == "" then Some(d)
    else
      var e := Depth(t[..|t| - 1], d);
      if e.None? then None
      else
        match t[|t| - 1]
        case '(' => Some(e.value + 1)
        case ')' => if e.value == 0 then None else Some(e.value - 1)
        case ',' => if e.value == 0 then None else e
        case _ => e
  }

  /** The parentheses in the text of an argument match, starting from `d` open ones, and its
      commas are inside of them. */
  predicate ArgFits(a: Arg, d: nat) {
    && NoCall(a.text) && Depth(a.text, d).Some?
    && var e := Depth(a.text, d).value;
       if a.End? then e == 0 else ArgsFit(a.call) && ArgFits(a.rest, e)
  }

  predicate ArgsFit(l: Args) { ArgFits(l.arg, 0) && (l.More? ==> ArgsFit(l.others)) }

  // ----- What they mean -----

  /** The value of an argument: its text, with the values of its calls in their places. */
  ghost function ArgValue(env: Env, c: Counts, args: seq<string>, a: Arg): Result<string>
    decreases a, 0
  {
    match a
    case End(t) => Ok(t)
    case Sub(t, call, rest) => Prepend(t, Followed(CallValue(env, c, args, call), ArgValue(env, c, args, rest)))
  }

  function Followed(a: Result<string>, b: Result<string>): Result<string> {
    if a.Ok? && b.Ok? then Ok(a.value + b.value) else Err
  }

  /** The value of a call: that of its function on the values of its arguments. */
  ghost function CallValue(env: Env, c: Counts, args: seq<string>, call: Args): Result<string>
    decreases call, 1
  {
    match ArgValues(env, c, args, call) case Err => Err case Ok(vs) => Apply(env, c, args, vs)
  }

  ghost function ArgValues(env: Env, c: Counts, args: seq<string>, l: Args): (r: Result<seq<string>>)
    ensures r.Ok? ==> |r.value| > 0
    decreases l, 0
  {
    match ArgValue(env, c, args, l.arg)
    case Err => Err
    case Ok(v) =>
      if l.Last? then Ok([v])
      else match ArgValues(env, c, args, l.others) case Err => Err case Ok(vs) => Ok([v] + vs)
  }

  // ----- The scanner agrees -----

  lemma {:induction false} DepthFirst(t: string, d: nat)
    requires t != ""
    ensures var e := Depth(t[..1], d);
      Depth(t, d) == if e.None? then None else Depth(t[1..], e.value)
  {
    if |t| == 1 {
      assert t[..1] == t;
    } else {
      var front := t[..|t| - 1];
      DepthFirst(front, d);
      assert front[..1] == t[..1] && front[1..] == t[1..][..|t| - 2];
      assert t[1..][|t| - 2] == t[|t| - 1];
    }
  }

  lemma DepthOfOne(t: string, d: nat)
    requires t != ""
    ensures Depth(t[..1], d) ==
      if t[0] == '(' then Some(d + 1)
      else if t[0] == ')' then (if d == 0 then None else Some(d - 1))
      else if t[0] == ',' && d == 0 then None
      else Some(d)
  {
    assert t[..1][..0] == "" && t[..1][0] == t[0];
  }

  /** No call arises where the text ends. */
  predicate Apart(t: string, tail: string) { t != "" && t[|t| - 1] == '$' ==> tail == "" || tail[0] != '(' }

  lemma {:induction false} TextMeans(env: Env, c: Counts, args: seq<string>, t: string, d: nat, tail: string,
    done: seq<string>, arg: string)
    requires NoCall(t) && Depth(t, d).Some? && Apart(t, tail)
    ensures Call(env, c, args, t + tail, done, arg, d) == Call(env, c, args, tail, done, arg + t, Depth(t, d).value)
    decreases |t|
  {
    var s := t + tail;
    if t == "" {
      assert s == tail && arg + t == arg;
    } else {
      DepthFirst(t, d);
      DepthOfOne(t, d);
      assert s[0] == t[0] && s[..1] == t[..1] && s[1..] == t[1..] + tail;
      assert !CallAt(s, 0) by { assert !CallAt(t, 0); }
      assert forall i: nat :: i < |t| - 1 ==> CallAt(t[1..], i) == CallAt(t, i + 1);
      TextMeans(env, c, args, t[1..], Depth(t[..1], d).value, tail, done, arg + t[..1]);
      assert arg + t[..1] + t[1..] == arg + t;
    }
  }

  /** Scanning an argument adds its value to what was read of it so far. */
  lemma {:induction false} ArgMeans(env: Env, c: Counts, args: seq<string>, a: Arg, d: nat, tail: string,
    done: seq<string>, arg: string)
    requires ArgFits(a, d) && tail != "" && tail[0] != '('
    ensures Call(env, c, args, ArgText(a) + tail, done, arg, d) ==
      match ArgValue(env, c, args, a) case Err => Err case Ok(v) => Call(env, c, args, tail, done, arg + v, 0)
    decreases a, 0
  {
    match a
    case End(t) => TextMeans(env, c, args, t, d, tail, done, arg);
    case Sub(t, call, rest) =>
      var after := ArgText(rest) + tail;
      var s := "$(" + ArgsText(call) + ")" + after;
      var e := Depth(t, d).value;
      assert ArgText(a) + tail == t + s;
      TextMeans(env, c, args, t, d, s, done, arg);
      assert CallAt(s, 0) && s[2..] == ArgsText(call) + ")" + after;
      CallMeans(env, c, args, call, after);
      var v := CallValue(env, c, args, call);
      if v.Ok? {
        ArgMeans(env, c, args, rest, e, tail, done, arg + t + v.value);
        var r := ArgValue(env, c, args, rest);
        if r.Ok? { assert arg + t + v.value + r.value == arg + (t + (v.value + r.value)); }
      }
  }

  /** Scanning the arguments of a call. */
  lemma {:induction false} ArgsMean(env: Env, c: Counts, args: seq<string>, l: Args, rest: string, done: seq<string>)
    requires ArgsFit(l)
    ensures Call(env, c, args, ArgsText(l) + ")" + rest, done, "", 0) ==
      match ArgValues(env, c, args, l)
      case Err => Err
      case Ok(vs) => (match Apply(env, c, args, done + vs) case Err => Err case Ok(v) => Ok((v, rest)))
    decreases l, 0
  {
    var tail := if l.Last? then ")" + rest else "," + ArgsText(l.others) + ")" + rest;
    assert ArgsText(l) + ")" + rest == ArgText(l.arg) + tail;
    ArgMeans(env, c, args, l.arg, 0, tail, done, "");
    var v := ArgValue(env, c, args, l.arg);
    if v.Ok? {
      assert "" + v.value == v.value;
      if l.Last? {
        assert tail[1..] == rest;
      } else {
        assert tail[1..] == ArgsText(l.others) + ")" + rest;
        ArgsMean(env, c, args, l.others, rest, done + [v.value]);
        var vs := ArgValues(env, c, args, l.others);
        if vs.Ok? { assert done + [v.value] + vs.value == done + ([v.value] + vs.value); }
      }
    }
  }

  /** A call with these arguments and any text after it has the value of its function on
      exactly the values of these arguments, and what comes after it is that text. */
  lemma CallMeans(env: Env, c: Counts, args: seq<string>, call: Args, rest: string)
    requires ArgsFit(call)
    ensures Call(env, c, args, ArgsText(call) + ")" + rest, [], "", 0) ==
      match CallValue(env, c, args, call) case Err => Err case Ok(v) => Ok((v, rest))
    decreases call, 1
  {
    ArgsMean(env, c, args, call, rest, []);
    var vs := ArgValues(env, c, args, call);
    if vs.Ok? { assert [] + vs.value == vs.value; }
  }

  // ----- Nothing else has a value -----

  function Push(ch: char, a: Arg): Arg { a.(text := [ch] + a.text) }

  function PushFirst(ch: char, l: Args): Args { l.(arg := Push(ch, l.arg)) }

  /** The first argument is read from a place where `d` parentheses are open. */
  predicate FitFrom(l: Args, d: nat) { ArgFits(l.arg, d) && (l.More? ==> ArgsFit(l.others)) }

  lemma PushText(ch: char, l: Args)
    ensures ArgsText(PushFirst(ch, l)) == [ch] + ArgsText(l)
  {
    assert ArgText(Push(ch, l.arg)) == [ch] + ArgText(l.arg);
  }

  lemma PushFits(ch: char, l: Args, d: nat)
    requires Depth([ch], d).Some? && FitFrom(l, Depth([ch], d).value)
    requires !CallAt([ch] + ArgsText(l), 0)
    ensures FitFrom(PushFirst(ch, l), d)
  {
    var t := l.arg.text;
    var t' := [ch] + t;
    DepthFirst(t', d);
    assert t'[..1] == [ch] && t'[1..] == t;
    forall i: nat | i < |t'| ensures !CallAt(t', i) {
      if i == 0 {
        assert |t'| > 1 ==> ArgsText(l) != "" && ArgsText(l)[0] == t[0];
      } else {
        assert CallAt(t', i) == CallAt(t, i - 1);
      }
    }
  }

  /** Every text that is read as a call is a list of arguments, a closing parenthesis, and
      what comes after it. */
  lemma {:induction false} CallSplits(env: Env, c: Counts, args: seq<string>, s: string, done: seq<string>, arg: string,
    d: nat) returns (l: Args, rest: string)
    requires Call(env, c, args, s, done, arg, d).Ok?
    ensures FitFrom(l, d) && s == ArgsText(l) + ")" + rest
    decreases |s|
  {
    DepthOfOne(s, d);
    if CallAt(s, 0) {
      l, rest := SplitNested(env, c, args, s, done, arg, d);
    } else if s[0] == ')' && d == 0 {
      l, rest := Last(End("")), s[1..];
    } else if s[0] == ',' && d == 0 {
      var others;
      others, rest := CallSplits(env, c, args, s[1..], done + [arg], "", 0);
      l := More(End(""), others);
      assert s == [s[0]] + s[1..] && ArgsText(l) == "" + "," + ArgsText(others);
    } else {
      var more;
      more, rest := CallSplits(env, c, args, s[1..], done, arg + s[..1], Depth(s[..1], d).value);
      l := PushFirst(s[0], more);
      PushedSplit(s, more, rest, d);
    }
  }

  lemma PushedSplit(s: string, l: Args, rest: string, d: nat)
    requires s != "" && !CallAt(s, 0) && s[1..] == ArgsText(l) + ")" + rest
    requires Depth(s[..1], d).Some? && FitFrom(l, Depth(s[..1], d).value)
    ensures FitFrom(PushFirst(s[0], l), d) && s == ArgsText(PushFirst(s[0], l)) + ")" + rest
  {
    assert s == [s[0]] + s[1..] && s[..1] == [s[0]];
    PushText(s[0], l);
    assert [s[0]] + ArgsText(l) <= s;
    PushFits(s[0], l, d);
  }

  lemma {:induction false} SplitNested(env: Env, c: Counts, args: seq<string>, s: string, done: seq<string>,
    arg: string, d: nat) returns (l: Args, rest: string)
    requires Call(env, c, args, s, done, arg, d).Ok? && CallAt(s, 0)
    ensures FitFrom(l, d) && s == ArgsText(l) + ")" + rest
    decreases |s|, 0
  {
    var inner, after := CallSplits(env, c, args, s[2..], [], "", 0);
    CallMeans(env, c, args, inner, after);
    var (v, _) := Call(env, c, args, s[2..], [], "", 0).value;
    var more;
    more, rest := CallSplits(env, c, args, after, done, arg + v, d);
    l := Nest(inner, more);
    NestText(inner, more);
    NestFits(inner, more, d);
    NestedText(s, ArgsText(inner), after, ArgsText(more), rest);
  }

  /** A call before the first argument. */
  function Nest(inner: Args, l: Args): Args { l.(arg := Sub("", inner, l.arg)) }

  lemma NestText(inner: Args, l: Args)
    ensures ArgsText(Nest(inner, l)) == "$(" + ArgsText(inner) + ")" + ArgsText(l)
  {
    assert ArgText(Sub("", inner, l.arg)) == "$(" + ArgsText(inner) + ")" + ArgText(l.arg);
  }

  lemma NestFits(inner: Args, l: Args, d: nat)
    requires ArgsFit(inner) && FitFrom(l, d)
    ensures FitFrom(Nest(inner, l), d)
  {
  }

  lemma NestedText(s: string, inner: string, after: string, more: string, rest: string)
    requires CallAt(s, 0) && s[2..] == inner + ")" + after && after == more + ")" + rest
    ensures s == "$(" + inner + ")" + more + ")" + rest
  {
    assert s == "$(" + s[2..];
  }

  /** A text has a value as a call if and only if it is written as one and the call has a
      value; in particular a missing parenthesis is an error. */
  lemma CallExactly(env: Env, c: Counts, args: seq<string>, s: string, v: string, rest: string)
    ensures Call(env, c, args, s, [], "", 0) == Ok((v, rest)) <==>
      exists call :: ArgsFit(call) && s == ArgsText(call) + ")" + rest && CallValue(env, c, args, call) == Ok(v)
  {
    if Call(env, c, args, s, [], "", 0) == Ok((v, rest)) {
      var call, rest' := CallSplits(env, c, args, s, [], "", 0);
      CallMeans(env, c, args, call, rest');
    }
    forall call | ArgsFit(call) && s == ArgsText(call) + ")" + rest && CallValue(env, c, args, call) == Ok(v)
      ensures Call(env, c, args, s, [], "", 0) == Ok((v, rest))
    {
      CallMeans(env, c, args, call, rest);
    }
  }

  // ----- Whole texts and string literals -----

  /** A text with calls in it, whose own parentheses and commas mean nothing. */
  predicate TextFits(a: Arg) { NoCall(a.text) && (a.Sub? ==> ArgsFit(a.call) && TextFits(a.rest)) }

  lemma PlainWhole(env: Env, c: Counts, args: seq<string>, t: string, tail: string)
    requires NoCall(t) && Apart(t, tail)
    ensures Whole(env, c, args, t + tail) == Prepend(t, Whole(env, c, args, tail))
  {
    var s := t + tail;
    forall j | 0 <= j < |t| ensures !CallAt(s, j) {
      assert !CallAt(t, j);
    }
    SkipWhole(env, c, args, s, 0, |t|);
    assert s[0..] == s && s[0..|t|] == t && s[|t|..] == tail;
  }

  /** Expanding all of a text replaces each call by its value. */
  lemma {:induction false} WholeMeans(env: Env, c: Counts, args: seq<string>, a: Arg)
    requires TextFits(a)
    ensures Whole(env, c, args, ArgText(a)) == ArgValue(env, c, args, a)
  {
    match a
    case End(t) =>
      PlainWhole(env, c, args, t, "");
      assert t + "" == t;
    case Sub(t, call, rest) =>
      var s := "$(" + ArgsText(call) + ")" + ArgText(rest);
      assert ArgText(a) == t + s && s[2..] == ArgsText(call) + ")" + ArgText(rest);
      PlainWhole(env, c, args, t, s);
      CallMeans(env, c, args, call, ArgText(rest));
      WholeMeans(env, c, args, rest);
  }

  /** The values of calls: $(n) is argument n of the function being expanded, counted from the
      end for negative n; then come variables, functions and the environment, and anything
      else is empty.  A plain variable must not be in expansion already, and a function not
      more than a hundred times; a built-in function takes a limited number of arguments. */
  lemma ApplyMeans(env: Env, c: Counts, args: seq<string>, call: seq<string>)
    requires |call| > 0
    ensures var n, fn, r := env.parseInt(call[0]), call[0], Apply(env, c, args, call);
      if n.Some? && 0 <= n.value < |args| then r == Ok(args[n.value])
      else if n.Some? && -|args| <= n.value < 0 then r == Ok(args[|args| + n.value])
      else if fn in env.vars then
        var depth := if fn in c then c[fn] else 0;
        if depth > (if |call| == 1 then 0 else 100) then r == Err
        else r == Whole(env, c[fn := depth + 1], call, env.vars[fn])
      else if fn in env.functions then
        var f := env.functions[fn];
        if f.minArg <= |call| - 1 && (f.maxArg.None? || |call| - 1 <= f.maxArg.value) then r == f.call(call)
        else r == Err
      else if fn in env.environ then r == Ok(env.environ[fn])
      else r == Ok("")
  {
  }

  /** A piece of a string literal: a character as it is, a character after a backslash, or a
      call. */
  datatype Piece = Itself(c: char) | Escaped(c: char) | Expanded(call: Args)

  function PieceText(p: Piece): string {
    match p case Itself(c) => [c] case Escaped(c) => ['\\', c] case Expanded(call) => "$(" + ArgsText(call) + ")"
  }

  function PiecesText(ps: seq<Piece>): string { if ps == [] then "" else PieceText(ps[0]) + PiecesText(ps[1..]) }

  /** A character that stands for itself is neither the quote nor a backslash, nor a dollar
      sign before an opening parenthesis. */
  predicate PiecesFit(ps: seq<Piece>, quote: char) {
    ps != [] ==>
      && PiecesFit(ps[1..], quote)
      && match ps[0]
         case Itself(c) => c != quote && c != '\\' && (c == '$' && |ps| > 1 ==> ps[1] != Itself('('))
         case Escaped(_) => true
         case Expanded(call) => ArgsFit(call)
  }

  ghost function PieceValue(env: Env, c: Counts, p: Piece): Result<string> {
    match p case Itself(ch) => Ok([ch]) case Escaped(ch) => Ok([ch]) case Expanded(call) => CallValue(env, c, [], call)
  }

  ghost function PiecesValue(env: Env, c: Counts, ps: seq<Piece>): Result<string> {
    if ps == [] then Ok("") else Followed(PieceValue(env, c, ps[0]), PiecesValue(env, c, ps[1..]))
  }

  /** Reading the first piece of a literal. */
  lemma {:induction false} PieceMeans(env: Env, c: Counts, quote: char, p: Piece, tail: string)
    requires quote in {'"', '\''} && PiecesFit([p], quote) && tail != "" && (p == Itself('$') ==> tail[0] != '(')
    ensures Literal(env, c, quote, PieceText(p) + tail) ==
      match PieceValue(env, c, p) case Err => Err case Ok(v) => PrependTo(v, Literal(env, c, quote, tail))
  {
    var s := PieceText(p) + tail;
    match p
    case Itself(ch) => assert s[0] == ch && s[1..] == tail && s[..1] == [ch];
    case Escaped(ch) => assert s[1..2] == [ch] && s[2..] == tail;
    case Expanded(call) =>
      assert s[2..] == ArgsText(call) + ")" + tail;
      CallMeans(env, c, [], call, tail);
  }

  /** A string literal has the value of its pieces, and ends at the first quote that is not
      escaped: the values of calls may have quotes and backslashes in them. */
  lemma LiteralMeans(env: Env, c: Counts, quote: char, ps: seq<Piece>, rest: string)
    requires quote in {'"', '\''} && PiecesFit(ps, quote)
    ensures Literal(env, c, quote, PiecesText(ps) + [quote] + rest) ==
      match PiecesValue(env, c, ps) case Err => Err case Ok(v) => Ok((v, rest))
  {
    PiecesMean(env, c, quote, ps, [quote] + rest, rest);
    assert PiecesText(ps) + [quote] + rest == PiecesText(ps) + ([quote] + rest);
  }

  lemma {:induction false} PiecesMean(env: Env, c: Counts, quote: char, ps: seq<Piece>, end: string, rest: string)
    requires quote in {'"', '\''} && PiecesFit(ps, quote) && end == [quote] + rest
    ensures Literal(env, c, quote, PiecesText(ps) + end) ==
      match PiecesValue(env, c, ps) case Err => Err case Ok(v) => Ok((v, rest))
  {
    if ps == [] {
      assert PiecesText(ps) + end == end && end[1..] == rest;
    } else {
      PiecesMean(env, c, quote, ps[1..], end, rest);
      StartOf(ps, end);
      StartOf(ps[1..], end);
      FirstFits(ps, quote);
      PieceMeans(env, c, quote, ps[0], PiecesText(ps[1..]) + end);
    }
  }

  lemma FirstFits(ps: seq<Piece>, quote: char)
    requires PiecesFit(ps, quote) && ps != []
    ensures PiecesFit([ps[0]], quote)
  {
    assert [ps[0]][1..] == [];
  }

  lemma {:induction false} StartOf(ps: seq<Piece>, tail: string)
    requires tail != ""
    ensures PiecesText(ps) + tail != ""
    ensures (PiecesText(ps) + tail)[0] == if ps == [] then tail[0] else PieceText(ps[0])[0]
    ensures ps != [] ==> PiecesText(ps) + tail == PieceText(ps[0]) + (PiecesText(ps[1..]) + tail)
  {
    if ps == [] { assert PiecesText(ps) + tail == tail; } else { Joined(PieceText(ps[0]), PiecesText(ps[1..]), tail); }
  }

  lemma Joined(a: string, b: string, c: string)
    requires a != ""
    ensures a + b + c == a + (b + c) && (a + b + c)[0] == a[0]
  {
  }
}

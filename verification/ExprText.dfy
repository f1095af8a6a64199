/**
  Expressions as text: the tokeniser, for lines without macros, and the round trip from an
  expression to its text and back.
 */
module ExprText {
  import opened Model
  import opened ExprSyntax
  import opened Strings
  import opened Macro

  // ----- Tokens of a text -----

  /** A character of identifiers and keywords. */
  predicate IdChar(c: char) {
    'A' <= c <= 'Z' || 'a' <= c <= 'z' || '0' <= c <= '9' || c == '_' || c == '/' || c == '.' || c == '-'
  }

  function IdLength(s: string): (n: nat)
    ensures n <= |s| && (s != "" && IdChar(s[0]) ==> n > 0)
  {
    if s == "" || !IdChar(s[0]) then 0 else 1 + IdLength(s[1..])
  }

  /** Names are made of letters, digits, underscores, slashes, dots and hyphens, and go on as
      long as such characters do. */
  lemma {:induction false} NamesAre(s: string)
    ensures var n := IdLength(s);
      && (forall i :: 0 <= i < n ==> NameCode(s[i] as int))
      && (n < |s| ==> !NameCode(s[n] as int))
  {
    if s != "" && IdChar(s[0]) { NamesAre(s[1..]); }
  }

  /** The ASCII codes of these characters. */
  predicate NameCode(code: int) { 65 <= code <= 90 || 97 <= code <= 122 || 45 <= code <= 57 || code == 95 }

  function Strip(s: string): (r: string)
    ensures |r| <= |s| && (r != "" ==> !Blank(r[0]))
  {
    if s != "" && Blank(s[0]) then Strip(s[1..]) else s
  }

  /** How names are looked up: keywords, symbols (n, m and y are constants), quoted constants. */
  datatype Dictionary = Dictionary(keyword: string -> bool, sym: string -> Sym, quoted: string -> Sym)

  /** The operator at the start of the text and its length, 0 if there is none. */
  function Operator(s: string): (r: (Token, nat))
    requires s != ""
    ensures r.1 <= |s|
  {
    if "&&" <= s then (AndT, 2)
    else if "||" <= s then (OrT, 2)
    else if s[0] == '=' then (RelT(EQUAL), 1)
    else if "!=" <= s then (RelT(UNEQUAL), 2)
    else if s[0] == '!' then (NotT, 1)
    else if s[0] == '(' then (OpenT, 1)
    else if s[0] == ')' then (CloseT, 1)
    else if "<=" <= s then (RelT(LESS_EQUAL), 2)
    else if s[0] == '<' then (RelT(LESS), 1)
    else if ">=" <= s then (RelT(GREATER_EQUAL), 2)
    else if s[0] == '>' then (RelT(GREATER), 1)
    else (OtherT, 0)
  }

  function Push(t: Token, r: Option<seq<Token>>): Option<seq<Token>> { if r.Some? then Some([t] + r.value) else None }

  /** The tokens of a text that starts at a token; None for an error.  A comment ends it. */
  ghost function Lex(d: Dictionary, env: Env, s: string): Option<seq<Token>>
    decreases |s|
  {
    if s == "" || s[0] == '#' then Some([])
    else if IdChar(s[0]) then
      var n := IdLength(s);
      Push(if d.keyword(s[..n]) then OtherT else SymT(d.sym(s[..n])), Lex(d, env, Strip(s[n..])))
    else if s[0] == '"' || s[0] == '\'' then
      match Literal(env, map[], s[0], s[1..])
      case Err => None
      case Ok((v, rest)) => if |rest| < |s| then Push(SymT(d.quoted(v)), Lex(d, env, Strip(rest))) else None
    else
      var (t, n) := Operator(s);
      if n == 0 then None else Push(t, Lex(d, env, Strip(s[n..])))
  }

  // ----- The tokeniser -----

  function Before(ts: seq<Token>, r: Option<seq<Token>>): Option<seq<Token>> {
    if r.Some? then Some(ts + r.value) else None
  }

  lemma BeforePush(ts: seq<Token>, t: Token, r: Option<seq<Token>>)
    ensures Before(ts, Push(t, r)) == Before(ts + [t], r)
  {
    if r.Some? { assert ts + ([t] + r.value) == ts + [t] + r.value; }
  }

  /** Literals without macros do not depend on how often macros were expanded. */
  lemma {:induction false} PlainLiteral(env: Env, c: Counts, quote: char, s: string)
    requires '$' !in s
    ensures Literal(env, c, quote, s) == Literal(env, map[], quote, s)
    ensures var r := Literal(env, c, quote, s); r.Ok? ==>
      '$' !in r.value.0 && '$' !in r.value.1 && |r.value.1| < |s|
    decreases |s|
  {
    if s != "" && s[0] != quote {
      if s[0] != '\\' {
        PlainLiteral(env, c, quote, s[1..]);
      } else if |s| > 1 {
        PlainLiteral(env, c, quote, s[2..]);
      }
    }
  }

  method SkipBlanks(s: string, i: nat) returns (j: nat)
    requires i <= |s|
    ensures i <= j <= |s| && s[j..] == Strip(s[i..])
  {
    j := i;
    while j < |s| && Blank(s[j])
      invariant i <= j <= |s| && Strip(s[j..]) == Strip(s[i..])
    {
      assert s[j..][1..] == s[j + 1..];
      j := j + 1;
    }
    assert Strip(s[j..]) == s[j..];
  }

  method NameEnd(s: string, i: nat) returns (j: nat)
    requires i < |s| && IdChar(s[i])
    ensures i < j <= |s| && j - i == IdLength(s[i..])
  {
    j := i;
    while j < |s| && IdChar(s[j])
      invariant i <= j <= |s| && IdLength(s[i..]) == j - i + IdLength(s[j..])
    {
      assert s[j..][1..] == s[j + 1..];
      j := j + 1;
    }
  }

  /** The loop of _tokenize() over the rest of a line, from the start of a token on. */
  method Tokenize(pp: Preprocessor, d: Dictionary, text: string, expandVars: string -> string)
    returns (r: Option<seq<Token>>)
    requires pp.Valid() && '$' !in text && OnlyDollars(expandVars)
    modifies pp
    ensures r == Lex(d, pp.env, text)
  {
    var s, i: nat, ts: seq<Token> := text, 0, [];
    assert s[0..] == s;
    BeforeNothing(ts, Lex(d, pp.env, text));
    while i < |s| && s[i] != '#'
      invariant pp.Valid() && i <= |s| && '$' !in s[i..]
      invariant Lex(d, pp.env, text) == Before(ts, Lex(d, pp.env, s[i..]))
      decreases |s| - i
    {
      var t;
      var ok;
      ok, t, s, i := NextToken(pp, d, s, i, expandVars);
      if !ok {
        return None;
      }
      BeforePush(ts, t, Lex(d, pp.env, s[i..]));
      ts := ts + [t];
    }
    LexEnd(d, pp.env, s[i..]);
    assert ts + [] == ts;
    r := Some(ts);
  }

  lemma BeforeNothing(ts: seq<Token>, r: Option<seq<Token>>)
    requires ts == []
    ensures Before(ts, r) == r
  {
    if r.Some? { assert ts + r.value == r.value; }
  }

  lemma LexEnd(d: Dictionary, env: Env, s: string)
    requires s == "" || s[0] == '#'
    ensures Lex(d, env, s) == Some([])
  {
  }

  /** What a step over one token and the blanks after it must give. */
  ghost predicate StepOver(d: Dictionary, env: Env, s: string, i: nat, ok: bool, t: Token, s': string, i': nat)
    requires i < |s|
  {
    if ok then
      && i' <= |s'| && |s'| - i' < |s| - i && '$' !in s'[i'..]
      && Lex(d, env, s[i..]) == Push(t, Lex(d, env, s'[i'..]))
    else Lex(d, env, s[i..]) == None
  }

  method NextToken(pp: Preprocessor, d: Dictionary, s: string, i: nat, expandVars: string -> string)
    returns (ok: bool, t: Token, s': string, i': nat)
    requires pp.Valid() && i < |s| && s[i] != '#' && '$' !in s[i..] && OnlyDollars(expandVars)
    modifies pp
    ensures (ok ==> pp.Valid()) && StepOver(d, pp.env, s, i, ok, t, s', i')
  {
    if IdChar(s[i]) {
      t, i' := NameToken(pp.env, d, s, i);
      ok, s' := true, s;
    } else if s[i] == '"' || s[i] == '\'' {
      ok, t, s', i' := QuotedToken(pp, d, s, i, expandVars);
    } else {
      ok, t, i' := OperatorToken(pp.env, d, s, i);
      s' := s;
    }
  }

  method NameToken(ghost env: Env, d: Dictionary, s: string, i: nat) returns (t: Token, i': nat)
    requires i < |s| && IdChar(s[i]) && '$' !in s[i..]
    ensures StepOver(d, env, s, i, true, t, s, i')
  {
    var j := NameEnd(s, i);
    var name := s[i..j];
    t := if d.keyword(name) then OtherT else SymT(d.sym(name));
    i' := SkipBlanks(s, j);
    assert s[i..][..j - i] == name && s[i..][j - i..] == s[j..] && s[i..][0] == s[i];
    LexNameStep(d, env, s[i..], j - i);
  }

  lemma {:induction false} LexNameStep(d: Dictionary, env: Env, s: string, n: nat)
    requires s != "" && IdChar(s[0]) && IdLength(s) == n
    ensures var t := if d.keyword(s[..n]) then OtherT else SymT(d.sym(s[..n]));
      Lex(d, env, s) == Push(t, Lex(d, env, Strip(s[n..])))
  {
  }

  method OperatorToken(ghost env: Env, d: Dictionary, s: string, i: nat) returns (ok: bool, t: Token, i': nat)
    requires i < |s| && !IdChar(s[i]) && s[i] != '"' && s[i] != '\'' && s[i] != '#' && '$' !in s[i..]
    ensures StepOver(d, env, s, i, ok, t, s, i')
  {
    var op := Operator(s[i..]);
    assert s[i..][0] == s[i];
    LexOperatorStep(d, env, s[i..]);
    if op.1 == 0 {
      return false, OtherT, i;
    }
    i' := SkipBlanks(s, i + op.1);
    assert s[i..][op.1..] == s[i + op.1..];
    ok, t := true, op.0;
  }

  lemma {:induction false} LexOperatorStep(d: Dictionary, env: Env, s: string)
    requires s != "" && !IdChar(s[0]) && s[0] != '"' && s[0] != '\'' && s[0] != '#'
    ensures var (t, n) := Operator(s);
      Lex(d, env, s) == if n == 0 then None else Push(t, Lex(d, env, Strip(s[n..])))
  {
  }

  method QuotedToken(pp: Preprocessor, d: Dictionary, s: string, i: nat, expandVars: string -> string)
    returns (ok: bool, t: Token, s': string, i': nat)
    requires pp.Valid() && i < |s| && (s[i] == '"' || s[i] == '\'') && '$' !in s[i..] && OnlyDollars(expandVars)
    modifies pp
    ensures (ok ==> pp.Valid()) && StepOver(d, pp.env, s, i, ok, t, s', i')
  {
    ghost var rest := s[i + 1..];
    assert '$' !in rest && s[i..][0] == s[i] && s[i..][1..] == rest by {
      assert s[i..] == [s[i]] + rest;
    }
    PlainLiteral(pp.env, pp.counts, s[i], rest);
    LexLiteralStep(d, pp.env, s[i..]);
    var x := pp.StringToken(s, i, expandVars);
    if x.Err? {
      return false, OtherT, s, i;
    }
    ok, s', t := true, x.value.1, SymT(d.quoted(x.value.0));
    i' := SkipBlanks(s', x.value.2);
  }

  lemma {:induction false} LexLiteralStep(d: Dictionary, env: Env, s: string)
    requires s != "" && (s[0] == '"' || s[0] == '\'')
    ensures Lex(d, env, s) ==
      match Literal(env, map[], s[0], s[1..])
      case Err => None
      case Ok((v, rest)) => if |rest| < |s| then Push(SymT(d.quoted(v)), Lex(d, env, Strip(rest))) else None
  {
  }

  // ----- Lexing what was printed -----

  predicate AllIdChars(s: string) { forall i :: 0 <= i < |s| ==> IdChar(s[i]) }

  /** The printed name of the symbol is read back as the symbol: an identifier that is not a
      keyword, or a quoted and escaped constant. */
  ghost predicate Lexable(d: Dictionary, show: Expr -> string, x: Sym) {
    var name := show(Ref(x));
    || (name != "" && AllIdChars(name) && !d.keyword(name) && d.sym(name) == x)
    || (exists v: string :: '$' !in v && name == Quoted(v) && d.quoted(v) == x)
  }

  ghost predicate LexableToken(d: Dictionary, show: Expr -> string, t: Token) {
    !t.OtherT? && !t.End? && (t.SymT? ==> Lexable(d, show, t.sym))
  }

  lemma {:induction false} IdLengthOfName(name: string, rest: string)
    requires AllIdChars(name) && (rest == "" || !IdChar(rest[0]))
    ensures IdLength(name + rest) == |name|
  {
    if name == "" {
      assert name + rest == rest;
    } else {
      assert (name + rest)[1..] == name[1..] + rest;
      IdLengthOfName(name[1..], rest);
    }
  }

  lemma StripBlank(s: string)
    ensures Strip(" " + s) == Strip(s)
  {
    assert (" " + s)[1..] == s;
  }

  predicate IsOperator(t: Token) { t.RelT? || t.AndT? || t.OrT? || t.NotT? || t.OpenT? || t.CloseT? }

  function Core(t: Token): string
    requires IsOperator(t)
  {
    match t
    case RelT(rel) => RelStr(rel)
    case AndT => "&&" case OrT => "||" case NotT => "!" case OpenT => "(" case CloseT => ")"
  }

  predicate Spaced(t: Token) { t.RelT? || t.AndT? || t.OrT? }

  lemma {:induction false} StripSpelling(show: Expr -> string, t: Token, rest: string)
    requires IsOperator(t)
    ensures Strip(Spelling(t, show) + rest) == Core(t) + if Spaced(t) then " " + rest else rest
  {
    var s := Core(t) + if Spaced(t) then " " + rest else rest;
    assert s[0] == Core(t)[0] && !Blank(s[0]);
    if Spaced(t) {
      assert Spelling(t, show) + rest == " " + s;
      StripBlank(s);
    } else {
      assert Spelling(t, show) + rest == s;
    }
  }

  lemma {:induction false} LexCore(d: Dictionary, env: Env, t: Token, after: string)
    requires IsOperator(t) && (after == "" || after[0] != '=')
    ensures Lex(d, env, Core(t) + after) == Push(t, Lex(d, env, Strip(after)))
  {
    OperatorRead(t, Core(t), after);
  }

  lemma {:induction false} SameStripped(t: Token, rest: string, after: string)
    requires after == if Spaced(t) then " " + rest else rest
    requires rest == "" || rest[0] != '='
    ensures Strip(after) == Strip(rest) && (after == "" || after[0] != '=')
  {
    StripBlank(rest);
  }

  /** An operator, as it is printed, is read back, and so is what follows. */
  lemma {:induction false} LexOperator(d: Dictionary, env: Env, show: Expr -> string, t: Token, rest: string)
    requires IsOperator(t) && (rest == "" || rest[0] != '=')
    ensures Lex(d, env, Strip(Spelling(t, show) + rest)) == Push(t, Lex(d, env, Strip(rest)))
  {
    var after := if Spaced(t) then " " + rest else rest;
    StripSpelling(show, t, rest);
    SameStripped(t, rest, after);
    LexCore(d, env, t, after);
  }

  lemma OperatorRead(t: Token, core: string, after: string)
    requires IsOperator(t) && core == Core(t)
    requires after == "" || after[0] != '='
    ensures Operator(core + after) == (t, |core|) && (core + after)[|core|..] == after
    ensures var c := (core + after)[0]; !IdChar(c) && c != '#' && c != '"' && c != '\'' && !Blank(c)
  {
    var s := core + after;
    assert s[0] == core[0] && (|core| == 2 ==> s[1] == core[1] && s[..2] == core);
    assert |core| == 1 && |s| > 1 ==> s[1] == after[0];
  }

  lemma {:induction false} LexIdentifier(d: Dictionary, env: Env, name: string, rest: string)
    requires name != "" && AllIdChars(name) && !d.keyword(name) && (rest == "" || !IdChar(rest[0]))
    ensures Lex(d, env, Strip(name + rest)) == Push(SymT(d.sym(name)), Lex(d, env, Strip(rest)))
  {
    var s := name + rest;
    NameFirst(name, rest);
    IdLengthOfName(name, rest);
    LexNameStep(d, env, s, |name|);
  }

  lemma {:induction false} NameFirst(name: string, rest: string)
    requires name != "" && AllIdChars(name)
    ensures var s := name + rest; s[..|name|] == name && s[|name|..] == rest && IdChar(s[0]) && Strip(s) == s
  {
    assert (name + rest)[0] == name[0] && !Blank(name[0]);
  }

  /** One step at a quoted constant. */
  lemma {:induction false} LexQuoteStep(d: Dictionary, env: Env, s: string, v: string, rest: string)
    requires s != "" && s[0] == '"' && Literal(env, map[], '"', s[1..]) == Ok((v, rest)) && |rest| < |s|
    ensures Lex(d, env, s) == Push(SymT(d.quoted(v)), Lex(d, env, Strip(rest)))
  {
  }

  lemma {:induction false} LexQuoted(d: Dictionary, env: Env, v: string, rest: string)
    requires '$' !in v
    ensures Lex(d, env, Strip(Quoted(v) + rest)) == Push(SymT(d.quoted(v)), Lex(d, env, Strip(rest)))
  {
    var s := Quoted(v) + rest;
    QuotedFirst(v, rest);
    LiteralOfEscaped(env, map[], v, rest);
    LexQuoteStep(d, env, s, v, rest);
  }

  lemma {:induction false} QuotedFirst(v: string, rest: string)
    ensures var s := Quoted(v) + rest;
      s[0] == '"' && s[1..] == Escape(v) + "\"" + rest && Strip(s) == s && |rest| < |s|
  {
  }

  lemma {:induction false} LexName(d: Dictionary, env: Env, show: Expr -> string, x: Sym, rest: string)
    requires Lexable(d, show, x) && (rest == "" || !IdChar(rest[0]))
    ensures Lex(d, env, Strip(show(Ref(x)) + rest)) == Push(SymT(x), Lex(d, env, Strip(rest)))
  {
    var name := show(Ref(x));
    if name != "" && AllIdChars(name) && !d.keyword(name) && d.sym(name) == x {
      LexIdentifier(d, env, name, rest);
    } else {
      var v: string :| '$' !in v && name == Quoted(v) && d.quoted(v) == x;
      LexQuoted(d, env, v, rest);
    }
  }

  /** Neighbours that the blanks do not keep apart: two names. */
  ghost predicate Apart(ts: seq<Token>) { forall i :: 0 <= i < |ts| - 1 ==> !(ts[i].SymT? && ts[i + 1].SymT?) }

  lemma ApartTail(ts: seq<Token>)
    requires ts != [] && Apart(ts)
    ensures Apart(ts[1..])
  {
    var rest := ts[1..];
    forall i | 0 <= i < |rest| - 1 ensures !(rest[i].SymT? && rest[i + 1].SymT?) {
      assert rest[i] == ts[i + 1] && rest[i + 1] == ts[i + 1 + 1];
    }
  }

  lemma FirstOfSpelled(d: Dictionary, show: Expr -> string, ts: seq<Token>)
    requires ts != [] ==> LexableToken(d, show, ts[0])
    ensures var s := Spelled(ts, show);
      s != "" ==> ts != [] && s[0] != '=' && (!ts[0].SymT? ==> !IdChar(s[0]))
  {
    if ts != [] {
      assert Spelled(ts, show) == Spelling(ts[0], show) + Spelled(ts[1..], show);
      assert Spelling(ts[0], show) != "" && Spelling(ts[0], show)[0] == Spelled(ts, show)[0];
    }
  }

  lemma {:induction false} LexFirst(d: Dictionary, env: Env, show: Expr -> string, t: Token, rest: string)
    requires LexableToken(d, show, t) && (rest == "" || (rest[0] != '=' && (t.SymT? ==> !IdChar(rest[0]))))
    ensures Lex(d, env, Strip(Spelling(t, show) + rest)) == Push(t, Lex(d, env, Strip(rest)))
  {
    if t.SymT? { LexName(d, env, show, t.sym, rest); } else { LexOperator(d, env, show, t, rest); }
  }

  lemma {:induction false} LexSpelled(d: Dictionary, env: Env, show: Expr -> string, ts: seq<Token>)
    requires Apart(ts) && forall t :: t in ts ==> LexableToken(d, show, t)
    ensures Lex(d, env, Strip(Spelled(ts, show))) == Some(ts)
  {
    if ts != [] {
      var rest := Spelled(ts[1..], show);
      assert ts[0] in ts && (|ts| > 1 ==> ts[1] in ts);
      ApartTail(ts);
      LexSpelled(d, env, show, ts[1..]);
      FirstOfSpelled(d, show, ts[1..]);
      LexFirst(d, env, show, ts[0], rest);
      assert [ts[0]] + ts[1..] == ts;
    }
  }

  // ----- The tokens of a printed expression -----

  /** What such a sequence can start and end with. */
  ghost predicate Closed(ts: seq<Token>) {
    ts != [] && Apart(ts) && (ts[0].SymT? || ts[0].NotT? || ts[0].OpenT?)
    && forall t :: t in ts ==> !t.OtherT? && !t.End?
  }

  lemma ClosedJoin(a: seq<Token>, t: Token, b: seq<Token>)
    requires Closed(a) && Closed(b) && (t.AndT? || t.OrT?)
    ensures Closed(a + [t] + b)
  {
  }

  lemma ClosedParen(a: seq<Token>)
    requires Closed(a)
    ensures Closed([OpenT] + a + [CloseT]) && Closed([NotT, OpenT] + a + [CloseT])
  {
  }

  lemma {:induction false} TokensClosed(e: Expr)
    requires NoModes(e)
    ensures Closed(Tokens(e))
  {
    match e
    case Ref(x) =>
    case Rel(_, _, _) =>
    case And(l, r) =>
      TokensClosed(l);
      TokensClosed(r);
      ClosedParen(Tokens(l));
      ClosedParen(Tokens(r));
      ClosedJoin(TokensIn(l, l.Or?), AndT, TokensIn(r, r.Or?));
    case Or(l, r) =>
      TokensClosed(l);
      TokensClosed(r);
      ClosedParen(Tokens(l));
      ClosedParen(Tokens(r));
      ClosedJoin(TokensIn(l, l.And?), OrT, TokensIn(r, r.And?));
    case Not(x) =>
      TokensClosed(x);
      ClosedParen(Tokens(x));
  }

  /** Text round trip: tokenising the printed text of a choice-free expression with lexable
      names gives its tokens, and parsing them gives it back with chains nested to the right. */
  lemma TextRoundTrip(d: Dictionary, env: Env, rw: Rewriting, e: Expr, show: Expr -> string)
    requires NoModes(e) && forall x :: SymT(x) in Tokens(e) ==> Lexable(d, show, x)
    ensures Lex(d, env, ExprStr(e, show)) == Some(Tokens(e))
    ensures ParseExpr(rw, Lex(d, env, ExprStr(e, show)).value + [End]) == Some((Rewritten(rw, Right(e)), [End]))
  {
    var ts := Tokens(e);
    TokensClosed(e);
    forall t | t in ts ensures LexableToken(d, show, t) {}
    LexSpelled(d, env, show, ts);
    PrintParse(rw, e, show);
    NotBlankFirst(d, show, ts);
  }

  lemma NotBlankFirst(d: Dictionary, show: Expr -> string, ts: seq<Token>)
    requires Closed(ts) && LexableToken(d, show, ts[0])
    ensures Strip(Spelled(ts, show)) == Spelled(ts, show)
  {
    assert Spelled(ts, show) == Spelling(ts[0], show) + Spelled(ts[1..], show);
    assert Spelling(ts[0], show) != "" && !Blank(Spelling(ts[0], show)[0]);
  }
}

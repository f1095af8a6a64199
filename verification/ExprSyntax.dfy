/**
  Expressions as tokens and as text: the recursive-descent parser with its token cursor,
  the grammar it implements, and the printer.
 */
module ExprSyntax {
  import opened Model

  /** Tokens that matter in expressions.  `End` is the None that terminates a token list. */
  datatype Token =
    | SymT(sym: Sym) | RelT(rel: Relation) | AndT | OrT | NotT | OpenT | CloseT | OtherT | End

  // ----- The grammar -----

  /** expr: and_expr ['||' expr] */
  datatype ExprTree = OneAnd(a: AndTree) | OrTree(a: AndTree, e: ExprTree)

  /** and_expr: factor ['&&' and_expr] */
  datatype AndTree = OneFactor(f: Factor) | AndTree(f: Factor, a: AndTree)

  /** factor: symbol [relation symbol] | '!' factor | '(' expr ')' */
  datatype Factor = SymF(sym: Sym) | RelF(a: Sym, rel: Relation, b: Sym) | NotF(f: Factor) | ParenF(e: ExprTree)

  function Yield(t: ExprTree): seq<Token> {
    match t
    case OneAnd(a) => AndYield(a)
    case OrTree(a, e) => AndYield(a) + [OrT] + Yield(e)
  }

  function AndYield(t: AndTree): seq<Token> {
    match t
    case OneFactor(f) => FactorYield(f)
    case AndTree(f, a) => FactorYield(f) + [AndT] + AndYield(a)
  }

  function FactorYield(t: Factor): seq<Token> {
    match t
    case SymF(s) => [SymT(s)]
    case RelF(a, rel, b) => [SymT(a), RelT(rel), SymT(b)]
    case NotF(f) => [NotT] + FactorYield(f)
    case ParenF(e) => [OpenT] + Yield(e) + [CloseT]
  }

  /** The expression that a syntax tree stands for. */
  function Meaning(t: ExprTree): Expr {
    match t
    case OneAnd(a) => AndMeaning(a)
    case OrTree(a, e) => Or(AndMeaning(a), Meaning(e))
  }

  function AndMeaning(t: AndTree): Expr {
    match t
    case OneFactor(f) => FactorMeaning(f)
    case AndTree(f, a) => And(FactorMeaning(f), AndMeaning(a))
  }

  function FactorMeaning(t: Factor): Expr {
    match t
    case SymF(s) => Ref(s)
    case RelF(a, rel, b) => Rel(rel, a, b)
    case NotF(f) => Not(FactorMeaning(f))
    case ParenF(e) => Meaning(e)
  }

  /** In conditions, m stands for m && MODULES; not in relations. */
  datatype Rewriting = Keep | RewriteM(modules: Sym)

  function Rewritten(rw: Rewriting, e: Expr): Expr {
    match e
    case Ref(x) => if rw.RewriteM? && x == NMY(1) then And(Ref(x), Ref(rw.modules)) else e
    case And(l, r) => And(Rewritten(rw, l), Rewritten(rw, r))
    case Or(l, r) => Or(Rewritten(rw, l), Rewritten(rw, r))
    case Not(x) => Not(Rewritten(rw, x))
    case _ => e
  }

  /** The value of an expression if a lone m, outside of relations, is worth m only as far as
      the symbol MODULES is. */
  function LimitedVal(k: Kconfig, u: User, e: Expr, modules: Sym, w: World): Tri {
    match e
    case Ref(x) => if x == NMY(1) then (if SymTri(modules, w) == 0 then 0 else 1) else SymTri(x, w)
    case And(l, r) =>
      var a, b := LimitedVal(k, u, l, modules, w), LimitedVal(k, u, r, modules, w);
      if a <= b then a else b
    case Or(l, r) =>
      var a, b := LimitedVal(k, u, l, modules, w), LimitedVal(k, u, r, modules, w);
      if a >= b then a else b
    case Not(x) => 2 - LimitedVal(k, u, x, modules, w)
    case Mode(_) => ExprVal(k, u, e, w)
    case Rel(_, _, _) => ExprVal(k, u, e, w)
  }

  /** What rewriting means. */
  lemma {:induction false} RewrittenMeans(k: Kconfig, u: User, e: Expr, modules: Sym, w: World)
    ensures ExprVal(k, u, Rewritten(RewriteM(modules), e), w) == LimitedVal(k, u, e, modules, w)
  {
    match e
    case And(l, r) =>
      RewrittenMeans(k, u, l, modules, w);
      RewrittenMeans(k, u, r, modules, w);
    case Or(l, r) =>
      RewrittenMeans(k, u, l, modules, w);
      RewrittenMeans(k, u, r, modules, w);
    case Not(x) => RewrittenMeans(k, u, x, modules, w);
    case _ =>
  }

  lemma {:induction false} KeepKeeps(e: Expr)
    ensures Rewritten(Keep, e) == e
  {
    match e
    case And(l, r) => KeepKeeps(l); KeepKeeps(r);
    case Or(l, r) => KeepKeeps(l); KeepKeeps(r);
    case Not(x) => KeepKeeps(x);
    case _ =>
  }

  // ----- What the parser returns -----

  /** An expression and the tokens after it; None where KconfigError is raised. */
  type Parse = Option<(Expr, seq<Token>)>

  predicate Next(ts: seq<Token>, t: Token) { ts != [] && ts[0] == t }

  function ParseExpr(rw: Rewriting, ts: seq<Token>): (r: Parse)
    ensures r.Some? ==> |r.value.1| < |ts|
    decreases |ts|, 2
  {
    match ParseAnd(rw, ts)
    case None => None
    case Some((a, rest)) =>
      if Next(rest, OrT) then
        match ParseExpr(rw, rest[1..])
        case None => None
        case Some((b, rest')) => Some((Or(a, b), rest'))
      else Some((a, rest))
  }

  function ParseAnd(rw: Rewriting, ts: seq<Token>): (r: Parse)
    ensures r.Some? ==> |r.value.1| < |ts|
    decreases |ts|, 1
  {
    match ParseFactor(rw, ts)
    case None => None
    case Some((a, rest)) =>
      if Next(rest, AndT) then
        match ParseAnd(rw, rest[1..])
        case None => None
        case Some((b, rest')) => Some((And(a, b), rest'))
      else Some((a, rest))
  }

  function ParseFactor(rw: Rewriting, ts: seq<Token>): (r: Parse)
    ensures r.Some? ==> |r.value.1| < |ts|
    decreases |ts|, 0
  {
    if ts == [] then None
    else match ts[0]
      case SymT(x) =>
        if |ts| > 1 && ts[1].RelT? then
          if |ts| > 2 && ts[2].SymT? then Some((Rel(ts[1].rel, x, ts[2].sym), ts[3..])) else None
        else Some((Rewritten(rw, Ref(x)), ts[1..]))
      case NotT =>
        (match ParseFactor(rw, ts[1..])
         case None => None
         case Some((a, rest)) => Some((Not(a), rest)))
      case OpenT =>
        (match ParseExpr(rw, ts[1..])
         case None => None
         case Some((a, rest)) => if Next(rest, CloseT) then Some((a, rest[1..])) else None)
      case _ => None
  }

  // ----- The parser implements the grammar -----

  /** The parser accepts every sentence of the grammar, up to a token that cannot go on. */
  lemma {:induction false} ParsesExpr(rw: Rewriting, t: ExprTree, rest: seq<Token>)
    requires !Next(rest, OrT) && !Next(rest, AndT) && (rest != [] ==> !rest[0].RelT?)
    ensures ParseExpr(rw, Yield(t) + rest) == Some((Rewritten(rw, Meaning(t)), rest))
    decreases t
  {
    match t
    case OneAnd(a) => ParsesAnd(rw, a, rest);
    case OrTree(a, e) =>
      var more := [OrT] + Yield(e) + rest;
      assert Yield(t) + rest == AndYield(a) + more && more[1..] == Yield(e) + rest;
      ParsesAnd(rw, a, more);
      ParsesExpr(rw, e, rest);
  }

  lemma {:induction false} ParsesAnd(rw: Rewriting, t: AndTree, rest: seq<Token>)
    requires !Next(rest, AndT) && (rest != [] ==> !rest[0].RelT?)
    ensures ParseAnd(rw, AndYield(t) + rest) == Some((Rewritten(rw, AndMeaning(t)), rest))
    decreases t
  {
    match t
    case OneFactor(f) => ParsesFactor(rw, f, rest);
    case AndTree(f, a) =>
      var more := [AndT] + AndYield(a) + rest;
      assert AndYield(t) + rest == FactorYield(f) + more && more[1..] == AndYield(a) + rest;
      ParsesFactor(rw, f, more);
      ParsesAnd(rw, a, rest);
  }

  lemma {:induction false} ParsesFactor(rw: Rewriting, t: Factor, rest: seq<Token>)
    requires rest != [] ==> !rest[0].RelT?
    ensures ParseFactor(rw, FactorYield(t) + rest) == Some((Rewritten(rw, FactorMeaning(t)), rest))
    decreases t
  {
    var ts := FactorYield(t) + rest;
    match t
    case SymF(s) => assert ts[1..] == rest;
    case RelF(a, rel, b) => assert ts[3..] == rest;
    case NotF(f) =>
      assert ts[1..] == FactorYield(f) + rest;
      ParsesFactor(rw, f, rest);
    case ParenF(e) =>
      var more := [CloseT] + rest;
      assert ts[1..] == Yield(e) + more && more[1..] == rest;
      ParsesExpr(rw, e, more);
  }

  /** Nothing else is accepted: what the parser takes is a sentence of the grammar that
      stands for the expression it returns. */
  lemma {:induction false} ExprIsSentence(rw: Rewriting, ts: seq<Token>) returns (t: ExprTree)
    requires ParseExpr(rw, ts).Some?
    ensures var (e, rest) := ParseExpr(rw, ts).value; ts == Yield(t) + rest && e == Rewritten(rw, Meaning(t))
    decreases |ts|, 2
  {
    var a := AndIsSentence(rw, ts);
    var (x, rest) := ParseAnd(rw, ts).value;
    t := OneAnd(a);
    if Next(rest, OrT) {
      var e := ExprIsSentence(rw, rest[1..]);
      t := OrTree(a, e);
      var (y, rest') := ParseExpr(rw, rest[1..]).value;
      assert rest == [OrT] + rest[1..];
      JoinYield(ts, AndYield(a), OrT, rest[1..], Yield(e), rest');
    }
  }

  lemma JoinYield(ts: seq<Token>, a: seq<Token>, op: Token, more: seq<Token>, b: seq<Token>, rest: seq<Token>)
    requires ts == a + ([op] + more) && more == b + rest
    ensures ts == a + [op] + b + rest
  {
  }

  lemma {:induction false} AndIsSentence(rw: Rewriting, ts: seq<Token>) returns (t: AndTree)
    requires ParseAnd(rw, ts).Some?
    ensures var (e, rest) := ParseAnd(rw, ts).value; ts == AndYield(t) + rest && e == Rewritten(rw, AndMeaning(t))
    decreases |ts|, 1
  {
    var f := FactorIsSentence(rw, ts);
    var (x, rest) := ParseFactor(rw, ts).value;
    t := OneFactor(f);
    if Next(rest, AndT) {
      var a := AndIsSentence(rw, rest[1..]);
      t := AndTree(f, a);
      var (y, rest') := ParseAnd(rw, rest[1..]).value;
      assert rest == [AndT] + rest[1..];
      JoinYield(ts, FactorYield(f), AndT, rest[1..], AndYield(a), rest');
    }
  }

  lemma {:induction false} FactorIsSentence(rw: Rewriting, ts: seq<Token>) returns (t: Factor)
    requires ParseFactor(rw, ts).Some?
    ensures var (e, rest) := ParseFactor(rw, ts).value;
      ts == FactorYield(t) + rest && e == Rewritten(rw, FactorMeaning(t))
    decreases |ts|, 0
  {
    match ts[0]
    case SymT(x) =>
      if |ts| > 1 && ts[1].RelT? {
        t := RelF(x, ts[1].rel, ts[2].sym);
      } else {
        t := SymF(x);
      }
    case NotT =>
      var f := FactorIsSentence(rw, ts[1..]);
      t := NotF(f);
    case OpenT =>
      var e := ExprIsSentence(rw, ts[1..]);
      t := ParenF(e);
      var (x, rest) := ParseExpr(rw, ts[1..]).value;
      assert rest == [CloseT] + rest[1..];
  }

  // ----- The cursor -----

  class TokenCursor {
    const tokens: seq<Token>
    var i: nat

    /** There is always a token to look at. */
    ghost predicate Valid()
      reads this
    {
      i < |tokens| && tokens[|tokens| - 1] == End
    }

    constructor (tokens: seq<Token>)
      requires tokens != [] && tokens[|tokens| - 1] == End
      ensures Valid() && this.tokens == tokens && i == 0
    {
      this.tokens, i := tokens, 0;
    }

    /** The cursor has moved past what was parsed. */
    ghost predicate Parsed(r: Option<Expr>, p: Parse)
      reads this
    {
      if r.Some? then Valid() && p == Some((r.value, tokens[i..])) else p.None?
    }

    method CheckToken(t: Token) returns (found: bool)
      requires Valid() && t != End
      modifies this
      ensures Valid() && found == (tokens[old(i)] == t) && i == old(i) + if found then 1 else 0
    {
      found := tokens[i] == t;
      if found { i := i + 1; }
    }

    /** _parse_expr() */
    method Expression(rw: Rewriting) returns (r: Option<Expr>)
      requires Valid()
      modifies this
      ensures Parsed(r, ParseExpr(rw, tokens[old(i)..]))
      decreases |tokens| - i, 2
    {
      r := Conjunction(rw);
      if r.Some? {
        var more := CheckToken(OrT);
        if more {
          var right := Expression(rw);
          r := if right.Some? then Some(Or(r.value, right.value)) else None;
        }
      }
    }

    /** _parse_and_expr() */
    method Conjunction(rw: Rewriting) returns (r: Option<Expr>)
      requires Valid()
      modifies this
      ensures Parsed(r, ParseAnd(rw, tokens[old(i)..]))
      decreases |tokens| - i, 1
    {
      r := FactorAt(rw);
      if r.Some? {
        var more := CheckToken(AndT);
        if more {
          var right := Conjunction(rw);
          r := if right.Some? then Some(And(r.value, right.value)) else None;
        }
      }
    }

    /** _parse_factor() */
    method FactorAt(rw: Rewriting) returns (r: Option<Expr>)
      requires Valid()
      modifies this
      ensures Parsed(r, ParseFactor(rw, tokens[old(i)..]))
      decreases |tokens| - i, 0
    {
      var token := tokens[i];
      i := i + 1;
      r := None;
      match token
      case SymT(x) =>
        if tokens[i].RelT? {
          i := i + 1;
          var b := tokens[i];
          if b.SymT? {
            r := Some(Rel(tokens[i - 1].rel, x, b.sym));
            i := i + 1;
          }
        } else {
          r := Some(if rw.RewriteM? && x == NMY(1) then And(Ref(x), Ref(rw.modules)) else Ref(x));
        }
      case NotT =>
        var arg := FactorAt(rw);
        r := if arg.Some? then Some(Not(arg.value)) else None;
      case OpenT =>
        var e := Expression(rw);
        if e.Some? {
          var closed := CheckToken(CloseT);
          r := if closed then e else None;
        }
      case _ =>
    }
  }

  // ----- The printer -----

  predicate NoModes(e: Expr) {
    match e
    case Mode(_) => false
    case And(l, r) => NoModes(l) && NoModes(r)
    case Or(l, r) => NoModes(l) && NoModes(r)
    case Not(x) => NoModes(x)
    case _ => true
  }

  /** expr_str(), with `show` as the function that prints symbols and choices. */
  function ExprStr(e: Expr, show: Expr -> string): string
    decreases e, 0
  {
    match e
    case And(l, r) => Parenthesized(l, l.Or?, show) + " && " + Parenthesized(r, r.Or?, show)
    case Or(l, r) => Parenthesized(l, l.And?, show) + " || " + Parenthesized(r, r.And?, show)
    case Not(x) => if x.Ref? || x.Mode? then "!" + show(x) else "!(" + ExprStr(x, show) + ")"
    case Rel(rel, a, b) => show(Ref(a)) + " " + RelStr(rel) + " " + show(Ref(b))
    case _ => show(e)
  }

  function Parenthesized(e: Expr, needed: bool, show: Expr -> string): string
    decreases e, 1
  {
    if needed then "(" + ExprStr(e, show) + ")" else ExprStr(e, show)
  }

  function RelStr(rel: Relation): string {
    match rel
    case EQUAL => "=" case UNEQUAL => "!=" case LESS => "<"
    case LESS_EQUAL => "<=" case GREATER => ">" case GREATER_EQUAL => ">="
  }

  /** The tokens of the text. */
  function Tokens(e: Expr): seq<Token>
    requires NoModes(e)
    decreases e, 0
  {
    match e
    case Ref(x) => [SymT(x)]
    case And(l, r) => TokensIn(l, l.Or?) + [AndT] + TokensIn(r, r.Or?)
    case Or(l, r) => TokensIn(l, l.And?) + [OrT] + TokensIn(r, r.And?)
    case Not(x) => if x.Ref? then [NotT, SymT(x.sym)] else [NotT, OpenT] + Tokens(x) + [CloseT]
    case Rel(rel, a, b) => [SymT(a), RelT(rel), SymT(b)]
  }

  function TokensIn(e: Expr, parens: bool): seq<Token>
    requires NoModes(e)
    decreases e, 1
  {
    if parens then [OpenT] + Tokens(e) + [CloseT] else Tokens(e)
  }

  /** The text of a token, with the blanks the printer puts around it. */
  function Spelling(t: Token, show: Expr -> string): string {
    match t
    case SymT(x) => show(Ref(x))
    case RelT(rel) => " " + RelStr(rel) + " "
    case AndT => " && "
    case OrT => " || "
    case NotT => "!"
    case OpenT => "("
    case CloseT => ")"
    case _ => ""
  }

  function Spelled(ts: seq<Token>, show: Expr -> string): string {
    if ts == [] then "" else Spelling(ts[0], show) + Spelled(ts[1..], show)
  }

  lemma {:induction false} SpelledConcat(a: seq<Token>, b: seq<Token>, show: Expr -> string)
    ensures Spelled(a + b, show) == Spelled(a, show) + Spelled(b, show)
  {
    if a == [] {
      assert a + b == b;
    } else {
      assert (a + b)[1..] == a[1..] + b;
      SpelledConcat(a[1..], b, show);
    }
  }

  lemma OneSpelled(t: Token, show: Expr -> string)
    ensures Spelled([t], show) == Spelling(t, show)
  {
    assert [t][1..] == [] && Spelled([], show) == "";
  }

  lemma SpelledAround(a: seq<Token>, t: Token, b: seq<Token>, show: Expr -> string)
    ensures Spelled(a + [t] + b, show) == Spelled(a, show) + Spelling(t, show) + Spelled(b, show)
  {
    SpelledConcat(a + [t], b, show);
    SpelledConcat(a, [t], show);
    OneSpelled(t, show);
  }

  /** The printed text is the text of these tokens. */
  lemma {:induction false} TextOfTokens(e: Expr, show: Expr -> string)
    requires NoModes(e)
    ensures ExprStr(e, show) == Spelled(Tokens(e), show)
    decreases e, 0
  {
    match e
    case Ref(x) => OneSpelled(SymT(x), show);
    case And(l, r) =>
      ArgText(l, l.Or?, show);
      ArgText(r, r.Or?, show);
      SpelledAround(TokensIn(l, l.Or?), AndT, TokensIn(r, r.Or?), show);
    case Or(l, r) =>
      ArgText(l, l.And?, show);
      ArgText(r, r.And?, show);
      SpelledAround(TokensIn(l, l.And?), OrT, TokensIn(r, r.And?), show);
    case Not(x) =>
      ArgText(x, !x.Ref?, show);
      NotText(x, show);
    case Rel(rel, a, b) => RelText(rel, a, b, show);
  }

  lemma NotText(x: Expr, show: Expr -> string)
    requires NoModes(x) && Parenthesized(x, !x.Ref?, show) == Spelled(TokensIn(x, !x.Ref?), show)
    ensures ExprStr(Not(x), show) == Spelled(Tokens(Not(x)), show)
  {
    var ts, inner := TokensIn(x, !x.Ref?), Parenthesized(x, !x.Ref?, show);
    NotTokens(x);
    SpelledConcat([NotT], ts, show);
    OneSpelled(NotT, show);
    if x.Ref? {
      assert inner == show(x);
    } else {
      Nested(ExprStr(x, show));
    }
  }

  lemma Nested(s: string)
    ensures "!(" + s + ")" == "!" + ("(" + s + ")")
  {
  }

  lemma NotTokens(x: Expr)
    requires NoModes(x)
    ensures Tokens(Not(x)) == [NotT] + TokensIn(x, !x.Ref?)
  {
    if x.Ref? { assert TokensIn(x, false) == [SymT(x.sym)]; }
  }

  lemma RelText(rel: Relation, a: Sym, b: Sym, show: Expr -> string)
    ensures ExprStr(Rel(rel, a, b), show) == Spelled(Tokens(Rel(rel, a, b)), show)
  {
    SpelledAround([SymT(a)], RelT(rel), [SymT(b)], show);
    OneSpelled(SymT(a), show);
    OneSpelled(SymT(b), show);
    assert Tokens(Rel(rel, a, b)) == [SymT(a)] + [RelT(rel)] + [SymT(b)];
    var x, y := show(Ref(a)), show(Ref(b));
    assert x + " " + RelStr(rel) + " " + y == x + (" " + RelStr(rel) + " ") + y;
  }

  lemma {:induction false} ArgText(e: Expr, parens: bool, show: Expr -> string)
    requires NoModes(e)
    ensures Parenthesized(e, parens, show) == Spelled(TokensIn(e, parens), show)
    decreases e, 1
  {
    TextOfTokens(e, show);
    if parens {
      assert TokensIn(e, parens) == [] + [OpenT] + (Tokens(e) + [CloseT] + []);
      SpelledAround(Tokens(e), CloseT, [], show);
      SpelledAround([], OpenT, Tokens(e) + [CloseT] + [], show);
    }
  }

  // ----- Chains to the right -----

  function AndOnto(a: Expr, b: Expr): Expr { if a.And? then And(a.left, AndOnto(a.right, b)) else And(a, b) }

  function OrOnto(a: Expr, b: Expr): Expr { if a.Or? then Or(a.left, OrOnto(a.right, b)) else Or(a, b) }

  /** Chains of && and of || are nested to the right. */
  function Right(e: Expr): Expr {
    match e
    case And(l, r) => AndOnto(Right(l), Right(r))
    case Or(l, r) => OrOnto(Right(l), Right(r))
    case Not(x) => Not(Right(x))
    case _ => e
  }

  lemma {:induction false} OntoValue(k: Kconfig, u: User, a: Expr, b: Expr, w: World)
    ensures ExprVal(k, u, AndOnto(a, b), w) == Min(ExprVal(k, u, a, w), ExprVal(k, u, b, w))
    ensures ExprVal(k, u, OrOnto(a, b), w) == Max(ExprVal(k, u, a, w), ExprVal(k, u, b, w))
  {
    if a.And? || a.Or? { OntoValue(k, u, a.right, b, w); }
  }

  lemma {:induction false} RightValue(k: Kconfig, u: User, e: Expr, w: World)
    ensures ExprVal(k, u, Right(e), w) == ExprVal(k, u, e, w)
  {
    match e
    case And(l, r) =>
      RightValue(k, u, l, w);
      RightValue(k, u, r, w);
      OntoValue(k, u, Right(l), Right(r), w);
    case Or(l, r) =>
      RightValue(k, u, l, w);
      RightValue(k, u, r, w);
      OntoValue(k, u, Right(l), Right(r), w);
    case Not(x) => RightValue(k, u, x, w);
    case _ =>
  }

  // ----- The syntax tree of a printed expression -----

  function AndCat(a: AndTree, b: AndTree): AndTree {
    match a
    case OneFactor(f) => AndTree(f, b)
    case AndTree(f, a') => AndTree(f, AndCat(a', b))
  }

  function OrCat(a: ExprTree, b: ExprTree): ExprTree {
    match a
    case OneAnd(x) => OrTree(x, b)
    case OrTree(x, a') => OrTree(x, OrCat(a', b))
  }

  function TreeOf(e: Expr): ExprTree
    requires NoModes(e)
    decreases e, 2
  {
    if e.Or? then OrCat(OrArg(e.left), OrArg(e.right)) else OneAnd(AndTreeOf(e))
  }

  function OrArg(e: Expr): ExprTree
    requires NoModes(e)
    decreases e, 3
  {
    if e.And? then OneAnd(OneFactor(ParenF(TreeOf(e)))) else TreeOf(e)
  }

  function AndTreeOf(e: Expr): AndTree
    requires NoModes(e) && !e.Or?
    decreases e, 1
  {
    if e.And? then AndCat(AndArg(e.left), AndArg(e.right)) else OneFactor(FactorOf(e))
  }

  function AndArg(e: Expr): AndTree
    requires NoModes(e)
    decreases e, 3
  {
    if e.Or? then OneFactor(ParenF(TreeOf(e))) else AndTreeOf(e)
  }

  function FactorOf(e: Expr): Factor
    requires NoModes(e) && !e.Or? && !e.And?
    decreases e, 0
  {
    match e
    case Ref(x) => SymF(x)
    case Rel(rel, a, b) => RelF(a, rel, b)
    case Not(x) => NotF(if x.Ref? then SymF(x.sym) else ParenF(TreeOf(x)))
  }

  /** No element of the chain is itself a chain of the same kind. */
  predicate FlatOr(t: ExprTree) { !AndMeaning(t.a).Or? && (t.OrTree? ==> FlatOr(t.e)) }

  predicate FlatAnd(t: AndTree) { !FactorMeaning(t.f).And? && (t.AndTree? ==> FlatAnd(t.a)) }

  lemma {:induction false} OrCatFacts(a: ExprTree, b: ExprTree)
    requires FlatOr(a) && FlatOr(b)
    ensures FlatOr(OrCat(a, b)) && Yield(OrCat(a, b)) == Yield(a) + [OrT] + Yield(b)
    ensures Meaning(OrCat(a, b)) == OrOnto(Meaning(a), Meaning(b))
  {
    if a.OrTree? {
      OrCatFacts(a.e, b);
      assert AndYield(a.a) + [OrT] + (Yield(a.e) + [OrT] + Yield(b)) == Yield(a) + [OrT] + Yield(b);
    }
  }

  lemma {:induction false} AndCatFacts(a: AndTree, b: AndTree)
    requires FlatAnd(a) && FlatAnd(b)
    ensures FlatAnd(AndCat(a, b)) && AndYield(AndCat(a, b)) == AndYield(a) + [AndT] + AndYield(b)
    ensures AndMeaning(AndCat(a, b)) == AndOnto(AndMeaning(a), AndMeaning(b))
  {
    if a.AndTree? {
      AndCatFacts(a.a, b);
      assert FactorYield(a.f) + [AndT] + (AndYield(a.a) + [AndT] + AndYield(b)) == AndYield(a) + [AndT] + AndYield(b);
    }
  }

  lemma {:induction false} TreeIs(e: Expr)
    requires NoModes(e)
    ensures Yield(TreeOf(e)) == Tokens(e) && Meaning(TreeOf(e)) == Right(e) && (Right(e).And? <==> e.And?)
    ensures e.Or? <==> Right(e).Or?
    ensures !e.And? ==> FlatOr(TreeOf(e))
    decreases e, 2
  {
    if e.Or? {
      OrArgIs(e.left);
      OrArgIs(e.right);
      OrCatFacts(OrArg(e.left), OrArg(e.right));
    } else {
      AndTreeIs(e);
    }
  }

  lemma {:induction false} OrArgIs(e: Expr)
    requires NoModes(e)
    ensures Yield(OrArg(e)) == TokensIn(e, e.And?) && Meaning(OrArg(e)) == Right(e) && FlatOr(OrArg(e))
    decreases e, 3
  {
    TreeIs(e);
    if e.And? { ParenIs(e); }
  }

  lemma ParenIs(e: Expr)
    requires NoModes(e) && Yield(TreeOf(e)) == Tokens(e) && Meaning(TreeOf(e)) == Right(e)
    ensures var a := OneFactor(ParenF(TreeOf(e)));
      AndYield(a) == Yield(OneAnd(a)) == TokensIn(e, true) && AndMeaning(a) == Meaning(OneAnd(a)) == Right(e)
  {
    var f := ParenF(TreeOf(e));
    assert FactorYield(f) == TokensIn(e, true) && FactorMeaning(f) == Right(e);
  }

  lemma {:induction false} AndTreeIs(e: Expr)
    requires NoModes(e) && !e.Or?
    ensures var t := AndTreeOf(e);
      && AndYield(t) == Tokens(e) && AndMeaning(t) == Right(e) && FlatAnd(t)
      && (Right(e).And? <==> e.And?) && !Right(e).Or?
    decreases e, 1
  {
    if e.And? {
      AndArgIs(e.left);
      AndArgIs(e.right);
      AndCatFacts(AndArg(e.left), AndArg(e.right));
    } else if e.Not? {
      NotIs(e.arg);
    }
  }

  lemma {:induction false} NotIs(x: Expr)
    requires NoModes(x)
    ensures FactorYield(FactorOf(Not(x))) == Tokens(Not(x)) && FactorMeaning(FactorOf(Not(x))) == Not(Right(x))
    decreases x, 3
  {
    if x.Ref? {
      assert FactorYield(SymF(x.sym)) == [SymT(x.sym)];
    } else {
      TreeIs(x);
      ParenIs(x);
    }
  }

  lemma {:induction false} AndArgIs(e: Expr)
    requires NoModes(e)
    ensures AndYield(AndArg(e)) == TokensIn(e, e.Or?) && AndMeaning(AndArg(e)) == Right(e) && FlatAnd(AndArg(e))
    decreases e, 3
  {
    if e.Or? { TreeIs(e); } else { AndTreeIs(e); }
  }

  // ----- Round trip -----

  lemma {:induction false} RightIsRight(e: Expr)
    requires NoModes(e)
    ensures NoModes(Right(e)) && Tokens(Right(e)) == Tokens(e)
  {
    match e
    case And(l, r) =>
      RightIsRight(l);
      RightIsRight(r);
      TreeIs(l);
      TreeIs(r);
      AndOntoTokens(Right(l), Right(r));
    case Or(l, r) =>
      RightIsRight(l);
      RightIsRight(r);
      TreeIs(l);
      TreeIs(r);
      OrOntoTokens(Right(l), Right(r));
    case Not(x) =>
      RightIsRight(x);
      TreeIs(x);
      assert x.Ref? <==> Right(x).Ref?;
    case _ =>
  }

  lemma {:induction false} AndOntoTokens(a: Expr, b: Expr)
    requires NoModes(a) && NoModes(b)
    ensures NoModes(AndOnto(a, b)) && !AndOnto(a, b).Or?
    ensures Tokens(AndOnto(a, b)) == TokensIn(a, a.Or?) + [AndT] + TokensIn(b, b.Or?)
  {
    if a.And? {
      AndOntoTokens(a.right, b);
      assert TokensIn(a.left, a.left.Or?) + [AndT] + (TokensIn(a.right, a.right.Or?) + [AndT] + TokensIn(b, b.Or?))
          == Tokens(a) + [AndT] + TokensIn(b, b.Or?);
    }
  }

  lemma {:induction false} OrOntoTokens(a: Expr, b: Expr)
    requires NoModes(a) && NoModes(b)
    ensures NoModes(OrOnto(a, b)) && !OrOnto(a, b).And?
    ensures Tokens(OrOnto(a, b)) == TokensIn(a, a.And?) + [OrT] + TokensIn(b, b.And?)
  {
    if a.Or? {
      OrOntoTokens(a.right, b);
      assert TokensIn(a.left, a.left.And?) + [OrT] + (TokensIn(a.right, a.right.And?) + [OrT] + TokensIn(b, b.And?))
          == Tokens(a) + [OrT] + TokensIn(b, b.And?);
    }
  }

  /** Parsing the tokens of a printed expression takes all of them and gives the expression
      with its chains nested to the right, which has the same value in every state and
      prints to the same text; with rewriting, each lone m becomes m && MODULES. */
  lemma PrintParse(rw: Rewriting, e: Expr, show: Expr -> string)
    requires NoModes(e)
    ensures ParseExpr(rw, Tokens(e) + [End]) == Some((Rewritten(rw, Right(e)), [End]))
    ensures ParseExpr(Keep, Tokens(e) + [End]) == Some((Right(e), [End]))
    ensures forall k: Kconfig, u: User, w: World :: ExprVal(k, u, Right(e), w) == ExprVal(k, u, e, w)
    ensures ExprStr(Right(e), show) == ExprStr(e, show) == Spelled(Tokens(e), show)
  {
    TreeIs(e);
    ParsesExpr(rw, TreeOf(e), [End]);
    ParsesExpr(Keep, TreeOf(e), [End]);
    KeepKeeps(Right(e));
    forall k: Kconfig, u: User, w: World ensures ExprVal(k, u, Right(e), w) == ExprVal(k, u, e, w) {
      RightValue(k, u, e, w);
    }
    RightIsRight(e);
    TextOfTokens(e, show);
    TextOfTokens(Right(e), show);
  }
}

/**
  Lines as sequences of lexemes with blanks between them: what the tokeniser makes of every
  such line, however it is spaced.
 */
module LexMeaning {
  import opened Model
  import opened ExprSyntax
  import opened Strings
  import opened Macro
  import opened MacroMeaning
  import opened ExprText
  import LineMeaning

  /** A name or keyword, a quoted constant, or an operator. */
  datatype Lexeme = Name(text: string) | Constant(quote: char, pieces: seq<Piece>) | Sign(t: Token)

  datatype Item = Item(lexeme: Lexeme, blanks: string)

  function SignText(t: Token): string {
    match t
    case AndT => "&&" case OrT => "||" case NotT => "!" case OpenT => "(" case CloseT => ")"
    case RelT(rel) =>
      (match rel
       case EQUAL => "=" case UNEQUAL => "!=" case LESS => "<" case LESS_EQUAL => "<="
       case GREATER => ">" case GREATER_EQUAL => ">=")
    case _ => ""
  }

  function LexemeText(l: Lexeme): string {
    match l
    case Name(text) => text
    case Constant(q, ps) => [q] + PiecesText(ps) + [q]
    case Sign(t) => SignText(t)
  }

  /** The line: its lexemes with the blanks after them, and a comment if there is one. */
  function LineText(items: seq<Item>, comment: string): string {
    if items == [] then comment
    else LexemeText(items[0].lexeme) + items[0].blanks + LineText(items[1..], comment)
  }

  predicate LexemeFits(l: Lexeme) {
    match l
    case Name(text) => text != "" && forall i :: 0 <= i < |text| ==> NameCode(text[i] as int)
    case Constant(q, ps) => q in {'"', '\''} && PiecesFit(ps, q)
    case Sign(t) => t.AndT? || t.OrT? || t.NotT? || t.OpenT? || t.CloseT? || t.RelT?
  }

  /** Without blanks between them a name must not go on, and !, < and > must not become
      other operators. */
  predicate Kept(l: Lexeme, after: string) {
    after != "" ==>
      match l
      case Name(_) => !NameCode(after[0] as int)
      case Constant(_, _) => true
      case Sign(t) => t in {NotT, RelT(LESS), RelT(GREATER)} ==> after[0] != '='
  }

  predicate AllBlank(s: string) { forall i :: 0 <= i < |s| ==> LineMeaning.IsBlank(s[i]) }

  predicate LineFits(items: seq<Item>, comment: string) {
    if items == [] then comment == "" || comment[0] == '#'
    else
      && LexemeFits(items[0].lexeme) && AllBlank(items[0].blanks)
      && LineFits(items[1..], comment)
      && Kept(items[0].lexeme, items[0].blanks + LineText(items[1..], comment))
  }

  // ----- What the tokens are -----

  /** The token of a lexeme; Err if a call in a constant has no value. */
  ghost function TokenOf(d: Dictionary, env: Env, l: Lexeme): Result<Token> {
    match l
    case Name(text) => Ok(if d.keyword(text) then OtherT else SymT(d.sym(text)))
    case Constant(_, ps) =>
      (match PiecesValue(env, map[], ps) case Err => Err case Ok(v) => Ok(SymT(d.quoted(v))))
    case Sign(t) => Ok(t)
  }

  ghost function TokensOf(d: Dictionary, env: Env, items: seq<Item>): Option<seq<Token>> {
    if items == [] then Some([])
    else
      match TokenOf(d, env, items[0].lexeme)
      case Err => None
      case Ok(t) => ExprText.Push(t, TokensOf(d, env, items[1..]))
  }

  lemma {:induction false} BlanksStripped(blanks: string, rest: string)
    requires AllBlank(blanks) && (rest == "" || !LineMeaning.IsBlank(rest[0]))
    ensures Strip(blanks + rest) == rest
  {
    if blanks != "" {
      assert (blanks + rest)[1..] == blanks[1..] + rest;
      BlanksStripped(blanks[1..], rest);
    } else {
      assert blanks + rest == rest;
    }
  }

  /** Lexemes and comments do not start with a blank. */
  lemma LineStart(items: seq<Item>, comment: string)
    requires LineFits(items, comment)
    ensures var s := LineText(items, comment); s == "" || !LineMeaning.IsBlank(s[0])
  {
    if items != [] {
      var text := LexemeText(items[0].lexeme);
      assert text != "" && LineText(items, comment)[0] == text[0];
    }
  }

  lemma {:induction false} NameLex(d: Dictionary, env: Env, text: string, after: string)
    requires LexemeFits(Name(text)) && Kept(Name(text), after)
    ensures Lex(d, env, text + after) ==
      ExprText.Push(if d.keyword(text) then OtherT else SymT(d.sym(text)), Lex(d, env, Strip(after)))
  {
    var s := text + after;
    NamesAre(s);
    var n := IdLength(s);
    assert forall i :: 0 <= i < |text| ==> s[i] == text[i];
    assert after != "" ==> s[|text|] == after[0];
    assert s[..|text|] == text && s[|text|..] == after && s[0] == text[0];
  }

  lemma {:induction false} ConstantLex(d: Dictionary, env: Env, q: char, ps: seq<Piece>, after: string)
    requires LexemeFits(Constant(q, ps))
    ensures Lex(d, env, [q] + PiecesText(ps) + [q] + after) ==
      match PiecesValue(env, map[], ps)
      case Err => None
      case Ok(v) => ExprText.Push(SymT(d.quoted(v)), Lex(d, env, Strip(after)))
  {
    var s := [q] + PiecesText(ps) + [q] + after;
    assert s[0] == q && s[1..] == PiecesText(ps) + [q] + after;
    LiteralMeans(env, map[], q, ps, after);
  }

  lemma {:induction false} SignLex(d: Dictionary, env: Env, t: Token, after: string)
    requires LexemeFits(Sign(t)) && Kept(Sign(t), after)
    ensures Lex(d, env, SignText(t) + after) == ExprText.Push(t, Lex(d, env, Strip(after)))
  {
    var core := SignText(t);
    var s := core + after;
    assert s[0] == core[0] && (|core| == 2 ==> s[1] == core[1] && s[..2] == core);
    assert |core| == 1 && |s| > 1 ==> s[1] == after[0];
    assert s[|core|..] == after;
    assert Operator(s) == (t, |core|);
  }

  /** The tokens of a line are those of its lexemes: blanks and comments make no difference,
      and a line with a constant that has no value is an error. */
  lemma {:induction false} LineMeans(d: Dictionary, env: Env, items: seq<Item>, comment: string)
    requires LineFits(items, comment)
    ensures Lex(d, env, LineText(items, comment)) == TokensOf(d, env, items)
  {
    if items != [] {
      var l, rest := items[0].lexeme, LineText(items[1..], comment);
      var after := items[0].blanks + rest;
      assert LineText(items, comment) == LexemeText(l) + after;
      LineMeans(d, env, items[1..], comment);
      LineStart(items[1..], comment);
      BlanksStripped(items[0].blanks, rest);
      match l
      case Name(text) => NameLex(d, env, text, after);
      case Constant(q, ps) => ConstantLex(d, env, q, ps, after);
      case Sign(t) => SignLex(d, env, t, after);
    }
  }
}

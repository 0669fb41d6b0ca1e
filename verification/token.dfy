/**
 * Tokens of src/token.rs: the token types the scanner produces, the keyword
 * table `identify`, the token record and the `Handler` that the scanner
 * yields instead of a token (a lexical error, or the end of input).
 *
 * `Token::new` and `Handler::error` only store their arguments; they are the
 * constructors `Token` and `Error` of the datatypes below.
 */
module Tokens {
  import opened Wrappers

  datatype TokenType =
    | LParen | RParen
    | LBrace | RBrace
    | Comma | Dot | Minus | Plus
    | Semicolon | Slash | Star
    | Bang | BangEq
    | Eq | EqEq
    | Gt | GtEq
    | Lt | LtEq
    | String | Number | Ident
    | And | Else | False
    | For | Fun | If | Nil | Or
    | Print | Return | True | Var | While

  /** The thirteen reserved words; `class`, `super` and `this` are not among them. */
  predicate IsKeyword(t: TokenType) {
    t.And? || t.Else? || t.False? || t.For? || t.Fun? || t.If? || t.Nil? ||
    t.Or? || t.Print? || t.Return? || t.True? || t.Var? || t.While?
  }

  /** How a keyword is written in the source. */
  function Spelling(t: TokenType): (s: string)
    requires IsKeyword(t)
    ensures 2 <= |s| <= 6
    ensures forall k :: 0 <= k < |s| ==> 'a' <= s[k] <= 'z'
  {
    match t
    case And => "and"
    case Else => "else"
    case False => "false"
    case For => "for"
    case Fun => "fun"
    case If => "if"
    case Nil => "nil"
    case Or => "or"
    case Print => "print"
    case Return => "return"
    case True => "true"
    case Var => "var"
    case While => "while"
  }

  /**
   * `TokenType::identify`: the keyword an identifier-shaped lexeme spells,
   * by exact comparison, or `Ident`.
   */
  function Identify(lex: string): (t: TokenType)
    ensures t == Ident || IsKeyword(t)
    ensures t != Ident ==> Spelling(t) == lex
  {
    if lex == "and" then And
    else if lex == "else" then Else
    else if lex == "false" then False
    else if lex == "for" then For
    else if lex == "fun" then Fun
    else if lex == "if" then If
    else if lex == "nil" then Nil
    else if lex == "or" then Or
    else if lex == "print" then Print
    else if lex == "return" then Return
    else if lex == "true" then True
    else if lex == "var" then Var
    else if lex == "while" then While
    else Ident
  }

  /** Every keyword is recognised from its spelling. */
  lemma IdentifySpelling(t: TokenType)
    requires IsKeyword(t)
    ensures Identify(Spelling(t)) == t
  {
    match t
    case And => assert Identify("and") == And;
    case Else => assert Identify("else") == Else;
    case False => assert Identify("false") == False;
    case For => assert Identify("for") == For;
    case Fun => assert Identify("fun") == Fun;
    case If => assert Identify("if") == If;
    case Nil => assert Identify("nil") == Nil;
    case Or => assert Identify("or") == Or;
    case Print => assert Identify("print") == Print;
    case Return => assert Identify("return") == Return;
    case True => assert Identify("true") == True;
    case Var => assert Identify("var") == Var;
    case While => assert Identify("while") == While;
  }

  /** A lexeme is typed `Ident` exactly when it spells no keyword. */
  lemma IdentIffNoKeyword(lex: string)
    ensures Identify(lex) == Ident <==> forall t :: IsKeyword(t) ==> Spelling(t) != lex
  {
    if Identify(lex) == Ident {
      forall t | IsKeyword(t)
        ensures Spelling(t) != lex
      {
        IdentifySpelling(t);
      }
    }
  }

  /** The reserved words of full Lox that this table leaves out are identifiers. */
  lemma NotKeywords()
    ensures Identify("class") == Ident
    ensures Identify("super") == Ident
    ensures Identify("this") == Ident
  {
  }

  /** Matching is exact and case-sensitive: a capitalised keyword, or no text at all, is an identifier. */
  lemma ExactMatch()
    ensures Identify("And") == Ident
    ensures Identify("") == Ident
  {
  }

  datatype Token = Token(typ: TokenType, lexeme: string, line: nat)

  /** What the scanner yields in place of a token. */
  datatype Handler = Error(message: string, line: nat) | EOF

  type TokenResult = Result<Token, Handler>
}

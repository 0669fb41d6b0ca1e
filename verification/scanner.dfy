/**
 * The scanner of src/scanner.rs: a cursor over the source characters with a
 * line counter and a `lex` buffer holding the characters of the lexeme being
 * read.
 *
 * The pure functions (`SpanWhile`, `Until`, `BlockEnd`, `SkipEnd`,
 * `LexToken`, `Scan`) say where each step of the scanner stops; the class
 * `Scanner` keeps the cursor as a position `pos` into `src`, and each of its
 * methods is proved to end where those functions say.
 *
 * `skip_whitespace` calls itself again whenever the next character is white
 * space or `/`. When a whole round consumed nothing, that call starts from
 * the same state as the one making it and the recursion never ends; this
 * happens exactly at a `/` that does not open a comment. The model does not
 * recurse there: it reports the hang (`SkipEnd` is None, `SkipWhitespace`
 * returns true, `Next` returns `Hangs`).
 */
module Scanners {
  import opened Wrappers
  import opened Tokens

  const UNTERMINATED: string := "Unterminated string"
  const UNEXPECTED: string := "Unexpected character"

  predicate IsWs(c: char) {
    c == ' ' || c == '\r' || c == '\t' || c == '\n'
  }

  predicate IsDigit(c: char) {
    '0' <= c <= '9'
  }

  predicate IsAlpha(c: char) {
    'a' <= c <= 'z' || 'A' <= c <= 'Z' || c == '_'
  }

  predicate IsAlnum(c: char) {
    IsDigit(c) || IsAlpha(c)
  }

  function NotEq(t: char): char -> bool {
    c => c != t
  }

  /** The number of newlines in `s`: the amount `line` grows by when `s` is consumed. */
  function Newlines(s: seq<char>): nat {
    if s == [] then 0 else Newlines(s[..|s| - 1]) + (if s[|s| - 1] == '\n' then 1 else 0)
  }

  /** Newlines add up over a concatenation. */
  lemma {:induction false} NewlinesAppend(a: seq<char>, b: seq<char>)
    ensures Newlines(a + b) == Newlines(a) + Newlines(b)
    decreases |b|
  {
    if b == [] {
      assert a + b == a;
    } else {
      assert (a + b)[..|a + b| - 1] == a + b[..|b| - 1];
      NewlinesAppend(a, b[..|b| - 1]);
    }
  }

  /** A sequence without newlines adds no line. */
  lemma {:induction false} NoNewlines(s: seq<char>)
    requires forall k :: 0 <= k < |s| ==> s[k] != '\n'
    ensures Newlines(s) == 0
    decreases |s|
  {
    if s != [] {
      NoNewlines(s[..|s| - 1]);
    }
  }

  /** Consuming `src[p0..p2]` is consuming `src[p0..p1]` and then `src[p1..p2]`. */
  lemma Split(src: seq<char>, p0: nat, p1: nat, p2: nat)
    requires p0 <= p1 <= p2 <= |src|
    ensures src[p0..p2] == src[p0..p1] + src[p1..p2]
    ensures Newlines(src[p0..p2]) == Newlines(src[p0..p1]) + Newlines(src[p1..p2])
  {
    assert src[p0..p2] == src[p0..p1] + src[p1..p2];
    NewlinesAppend(src[p0..p1], src[p1..p2]);
  }

  lemma AppendAssoc(a: seq<char>, b: seq<char>, c: seq<char>)
    ensures a + b + c == a + (b + c)
  {
  }

  /** `advance_while(f)` from `pos`: the first position at or after `pos` whose character fails `f`, or the end. */
  function SpanWhile(src: seq<char>, pos: nat, f: char -> bool): (q: nat)
    requires pos <= |src|
    ensures pos <= q <= |src|
    decreases |src| - pos
  {
    if pos < |src| && f(src[pos]) then SpanWhile(src, pos + 1, f) else pos
  }

  /** Every character a span passes satisfies `f`, and it stops at the end or at one that does not. */
  lemma {:induction false} SpanWhileStops(src: seq<char>, pos: nat, f: char -> bool)
    requires pos <= |src|
    ensures var q := SpanWhile(src, pos, f);
      && (forall k :: pos <= k < q ==> f(src[k]))
      && (q == |src| || !f(src[q]))
    decreases |src| - pos
  {
    if pos < |src| && f(src[pos]) {
      SpanWhileStops(src, pos + 1, f);
    }
  }

  /**
   * `advance_until(t)` from `pos`: whether a `t` follows, and the position
   * just past the first one, or the end of the source when there is none.
   */
  function Until(src: seq<char>, pos: nat, t: char): (r: (nat, bool))
    requires pos <= |src|
    ensures pos <= r.0 <= |src|
    ensures !r.1 ==> r.0 == |src|
  {
    var e := SpanWhile(src, pos, NotEq(t));
    if e < |src| then (e + 1, true) else (e, false)
  }

  /** `advance_until(t)` finds a `t` exactly when one follows, and stops just past the first one. */
  lemma UntilFinds(src: seq<char>, pos: nat, t: char)
    requires pos <= |src|
    ensures var r := Until(src, pos, t);
      && (r.1 <==> t in src[pos..])
      && (r.1 ==> pos < r.0 && src[r.0 - 1] == t && t !in src[pos..r.0 - 1])
  {
    var e := SpanWhile(src, pos, NotEq(t));
    SpanWhileStops(src, pos, NotEq(t));
    if e < |src| {
      assert src[pos..][e - pos] == src[e];
      assert forall k :: 0 <= k < |src[pos..e]| ==> src[pos..e][k] == src[pos + k];
    } else {
      assert forall k :: 0 <= k < |src[pos..]| ==> src[pos..][k] == src[pos + k];
    }
  }

  /** `src` continues at `pos` with exactly `expected` (the doc comment of `advance_on_exact`). */
  predicate StartsWith(src: seq<char>, pos: nat, expected: seq<char>) {
    pos + |expected| <= |src| && forall k :: 0 <= k < |expected| ==> src[pos + k] == expected[k]
  }

  /** A source that differs from `expected` at one of its positions does not continue with it. */
  lemma Mismatch(src: seq<char>, pos: nat, expected: seq<char>, k: nat)
    requires k < |expected| && pos + k < |src| && src[pos + k] != expected[k]
    ensures !StartsWith(src, pos, expected)
  {
  }

  /** A block comment closes at `k`. */
  predicate ClosesAt(src: seq<char>, k: nat) {
    k + 1 < |src| && src[k] == '*' && src[k + 1] == '/'
  }

  /**
   * The loop over a block comment, entered past its opening slash and star:
   * it ends just past the first star and slash at or after `pos`, or at the
   * end of the source.
   */
  function BlockEnd(src: seq<char>, pos: nat): (r: nat)
    requires pos <= |src|
    ensures pos <= r <= |src|
    decreases |src| - pos
  {
    var (q, found) := Until(src, pos, '*');
    if !found then q
    else if q < |src| && src[q] == '/' then q + 1
    else BlockEnd(src, q)
  }

  /** A block comment ends just past its first closing star and slash, or at the end when there is none. */
  lemma {:induction false} BlockEndCloses(src: seq<char>, pos: nat)
    requires pos <= |src|
    ensures var r := BlockEnd(src, pos);
      || (r == |src| && forall k :: pos <= k < |src| ==> !ClosesAt(src, k))
      || (pos + 2 <= r && ClosesAt(src, r - 2) && forall k :: pos <= k < r - 2 ==> !ClosesAt(src, k))
    decreases |src| - pos
  {
    var (q, found) := Until(src, pos, '*');
    UntilFinds(src, pos, '*');
    if !found {
      assert forall k :: pos <= k < |src| ==> src[k] == src[pos..][k - pos];
    } else if q < |src| && src[q] == '/' {
      assert forall k :: pos <= k < q - 1 ==> src[k] == src[pos..q - 1][k - pos];
    } else {
      assert forall k :: pos <= k < q - 1 ==> src[k] == src[pos..q - 1][k - pos];
      BlockEndCloses(src, q);
    }
  }

  /** A `//` comment at `a` runs through its newline, or to the end. */
  function AfterLineComment(src: seq<char>, a: nat): (b: nat)
    requires a <= |src|
    ensures a <= b <= |src|
  {
    if StartsWith(src, a, "//") then Until(src, a + 2, '\n').0 else a
  }

  /** A block comment at `b` runs through its closing star and slash, or to the end. */
  function AfterBlockComment(src: seq<char>, b: nat): (c: nat)
    requires b <= |src|
    ensures b <= c <= |src|
  {
    if StartsWith(src, b, "/*") then BlockEnd(src, b + 2) else b
  }

  /**
   * One round of `skip_whitespace`: white space, then a `//` comment through
   * its newline, then a block comment.
   */
  function Round(src: seq<char>, pos: nat): (c: nat)
    requires pos <= |src|
    ensures pos <= c <= |src|
  {
    AfterBlockComment(src, AfterLineComment(src, SpanWhile(src, pos, IsWs)))
  }

  /**
   * `skip_whitespace` from `pos`: where it returns, or None when it calls
   * itself in the state it was called in, and so never returns.
   */
  function SkipEnd(src: seq<char>, pos: nat): (r: Option<nat>)
    requires pos <= |src|
    ensures r.Some? ==> pos <= r.value <= |src|
    decreases |src| - pos
  {
    var c := Round(src, pos);
    if c < |src| && (IsWs(src[c]) || src[c] == '/') then
      if c == pos then None else SkipEnd(src, c)
    else
      Some(c)
  }

  /** The single-character tokens. */
  function Punctuation(c: char): (t: Option<TokenType>)
    ensures t.Some? <==> c in "(){};,.-+*/"
  {
    match c
    case '(' => Some(LParen)
    case ')' => Some(RParen)
    case '{' => Some(LBrace)
    case '}' => Some(RBrace)
    case ';' => Some(Semicolon)
    case ',' => Some(Comma)
    case '.' => Some(Dot)
    case '-' => Some(Minus)
    case '+' => Some(Plus)
    case '*' => Some(Star)
    case '/' => Some(Slash)
    case _ => None
  }

  /** The operators that take a following `=`: the token alone, and with the `=`. */
  function Comparison(c: char): (t: Option<(TokenType, TokenType)>)
    ensures t.Some? <==> c in "!=<>"
  {
    match c
    case '!' => Some((Bang, BangEq))
    case '=' => Some((Eq, EqEq))
    case '<' => Some((Lt, LtEq))
    case '>' => Some((Gt, GtEq))
    case _ => None
  }

  /** A numeral after its first digit: more digits, then an optional `.` and more digits. */
  function NumberEnd(src: seq<char>, p: nat): (q: nat)
    requires p <= |src|
    ensures p <= q <= |src|
  {
    var a := SpanWhile(src, p, IsDigit);
    if a < |src| && src[a] == '.' then SpanWhile(src, a + 1, IsDigit) else a
  }

  /**
   * The lexeme starting with `src[p]`: its token type or error message, and
   * the position just past it. The arms of the `match c` of `next` are tried
   * in the order the source lists them.
   */
  function LexToken(src: seq<char>, p: nat): (r: (Result<TokenType, string>, nat))
    requires p < |src|
    ensures p < r.1 <= |src|
  {
    match Punctuation(src[p])
    case Some(t) => (Ok(t), p + 1)
    case None => LexOperator(src, p)
  }

  /** The arms for ! = < >, which take a following `=`. */
  function LexOperator(src: seq<char>, p: nat): (r: (Result<TokenType, string>, nat))
    requires p < |src|
    ensures p < r.1 <= |src|
  {
    match Comparison(src[p])
    case Some((one, two)) =>
      if p + 1 < |src| && src[p + 1] == '=' then (Ok(two), p + 2) else (Ok(one), p + 1)
    case None => LexLiteral(src, p)
  }

  /** The arms for strings, numbers and identifiers, and the error for any other character. */
  function LexLiteral(src: seq<char>, p: nat): (r: (Result<TokenType, string>, nat))
    requires p < |src|
    ensures p < r.1 <= |src|
  {
    var c := src[p];
    if c == '"' then
      var (q, closed) := Until(src, p + 1, '"');
      (if closed then Ok(String) else Err(UNTERMINATED), q)
    else if IsDigit(c) then
      (Ok(Number), NumberEnd(src, p + 1))
    else if IsAlpha(c) then
      var q := SpanWhile(src, p + 1, IsAlnum);
      (Ok(Identify(src[p..q])), q)
    else
      (Err(UNEXPECTED), p + 1)
  }

  /** What one call of `next` does: hang, or yield an item and leave the scanner at a new position, line and `lex`. */
  datatype ScanStep = Hang | Moved(item: Option<TokenResult>, pos: nat, line: nat, lex: seq<char>)

  /**
   * The lexeme at `p` read from line `l`: a token, whose line is the one
   * reached at the end of its lexeme and after which `lex` is empty, or an
   * error, which leaves its lexeme in `lex`.
   */
  function Lexeme(src: seq<char>, p: nat, l: nat): (r: ScanStep)
    requires p < |src|
    ensures r.Moved? && r.item.Some? && r.item != Some(Err(EOF))
    ensures p < r.pos <= |src| && r.line == l + Newlines(src[p..r.pos])
  {
    var (kind, q) := LexToken(src, p);
    var l' := l + Newlines(src[p..q]);
    match kind
    case Ok(t) => Moved(Some(Ok(Token(t, src[p..q], l'))), q, l', [])
    case Err(m) => Moved(Some(Err(Error(m, l'))), q, l', src[p..q])
  }

  /**
   * `next` from `pos` and `line`. At the end of the source the first call
   * yields EOF and sets `line` to 0, and a call with `line` 0 there yields
   * nothing.
   */
  function Scan(src: seq<char>, pos: nat, line: nat): ScanStep
    requires pos <= |src|
  {
    match SkipEnd(src, pos)
    case None => Hang
    case Some(p) =>
      var l := line + Newlines(src[pos..p]);
      if p == |src| then
        if l > 0 then Moved(Some(Err(EOF)), p, 0, []) else Moved(None, p, l, [])
      else
        Lexeme(src, p, l)
  }

  /**
   * A call of `next` that returns stays within the source. It yields nothing
   * only at the end with `line` 0, and EOF only at the end, setting `line` to 0.
   * Any other item consumes input, and `line` grows by the newlines consumed.
   */
  lemma ScanAdvances(src: seq<char>, pos: nat, line: nat)
    requires pos <= |src|
    ensures var r := Scan(src, pos, line);
      && (r.Moved? ==> pos <= r.pos <= |src|)
      && (r.Moved? && r.item.None? ==> r.pos == |src| && line == 0 && r.line == 0)
      && (r.Moved? && r.item == Some(Err(EOF)) ==> r.pos == |src| && r.line == 0 && r.lex == [])
      && (r.Moved? && r.item.Some? && r.item != Some(Err(EOF)) ==>
            pos < r.pos && r.line == line + Newlines(src[pos..r.pos]))
  {
    match SkipEnd(src, pos)
    case None =>
    case Some(p) =>
      var l := line + Newlines(src[pos..p]);
      if p < |src| {
        var r := Lexeme(src, p, l);
        assert Scan(src, pos, line) == r;
        Split(src, pos, p, r.pos);
      }
  }

  /** `next` once skipping returned in front of a lexeme at `p`. */
  lemma ScanLexeme(src: seq<char>, pos: nat, line: nat, p: nat, l: nat)
    requires p < |src| && pos <= |src| && SkipEnd(src, pos) == Some(p)
    requires l == line + Newlines(src[pos..p])
    ensures Scan(src, pos, line) == Lexeme(src, p, l)
  {
  }

  /** `next` hangs when skipping does. */
  lemma ScanHang(src: seq<char>, pos: nat, line: nat)
    requires pos <= |src| && SkipEnd(src, pos).None?
    ensures Scan(src, pos, line) == Hang
  {
  }

  /** `next` once skipping returned at the end of the source. */
  lemma ScanEnd(src: seq<char>, pos: nat, line: nat)
    requires pos <= |src| && SkipEnd(src, pos) == Some(|src|)
    ensures var l := line + Newlines(src[pos..]);
      Scan(src, pos, line) ==
        if l > 0 then Moved(Some(Err(EOF)), |src|, 0, []) else Moved(None, |src|, l, [])
  {
    assert src[pos..|src|] == src[pos..];
  }

  // ---------------------------------------------------------------------
  // Properties of skipping

  /** `skip_whitespace` returns only in front of the end or a character that is neither white space nor `/`. */
  lemma {:induction false} SkipStops(src: seq<char>, pos: nat)
    requires pos <= |src|
    ensures SkipEnd(src, pos).Some? ==>
      var e := SkipEnd(src, pos).value;
      e == |src| || (!IsWs(src[e]) && src[e] != '/')
    decreases |src| - pos
  {
    var c := Round(src, pos);
    if c < |src| && (IsWs(src[c]) || src[c] == '/') && c != pos {
      SkipStops(src, c);
    }
  }

  /** In front of a character that is neither white space nor `/`, nothing is skipped. */
  lemma SkipAtToken(src: seq<char>, pos: nat)
    requires pos < |src| && !IsWs(src[pos]) && src[pos] != '/'
    ensures SkipEnd(src, pos) == Some(pos)
  {
    assert SpanWhile(src, pos, IsWs) == pos;
    Mismatch(src, pos, "//", 0);
    assert AfterLineComment(src, pos) == pos;
    Mismatch(src, pos, "/*", 0);
    assert AfterBlockComment(src, pos) == pos;
    assert Round(src, pos) == pos;
  }

  /** A `/` that opens no comment hangs `skip_whitespace`. */
  lemma LoneSlashHangs(src: seq<char>, pos: nat)
    requires pos < |src| && src[pos] == '/'
    requires pos + 1 == |src| || (src[pos + 1] != '/' && src[pos + 1] != '*')
    ensures SkipEnd(src, pos) == None
  {
    assert SpanWhile(src, pos, IsWs) == pos;
    if pos + 1 < |src| {
      Mismatch(src, pos, "//", 1);
      Mismatch(src, pos, "/*", 1);
    }
    assert Round(src, pos) == pos;
  }

  /** Hence a division never scans: `1 / 2` hangs right after the `1`. */
  lemma DivisionHangs()
    ensures Scan("1 / 2", 1, 1) == Hang
  {
    var src := "1 / 2";
    assert SpanWhile(src, 1, IsWs) == 2 by {
      assert SpanWhile(src, 2, IsWs) == 2;
    }
    Mismatch(src, 2, "//", 1);
    Mismatch(src, 2, "/*", 1);
    assert Round(src, 1) == 2;
    LoneSlashHangs(src, 2);
  }

  /** Without any `/` ahead, skipping always returns. */
  lemma NoSlashNoHang(src: seq<char>, pos: nat, line: nat)
    requires pos <= |src|
    requires forall k :: pos <= k < |src| ==> src[k] != '/'
    ensures SkipEnd(src, pos).Some?
    ensures !Scan(src, pos, line).Hang?
  {
    var a := SpanWhile(src, pos, IsWs);
    SpanWhileStops(src, pos, IsWs);
    if a < |src| {
      Mismatch(src, a, "//", 0);
      Mismatch(src, a, "/*", 0);
    }
    assert Round(src, pos) == a;
  }

  /** The `Slash` arm of `next` is dead: no call yields a `Slash` token. */
  lemma NoSlashToken(src: seq<char>, pos: nat, line: nat)
    requires pos <= |src|
    ensures var r := Scan(src, pos, line);
      r.Moved? && r.item.Some? && r.item.value.Ok? ==> r.item.value.value.typ != Slash
  {
    SkipStops(src, pos);
    match SkipEnd(src, pos)
    case None =>
    case Some(p) =>
      if p < |src| {
        LexNotSlash(src, p);
      }
  }

  /** Only a `/` lexes as `Slash`. */
  lemma LexNotSlash(src: seq<char>, p: nat)
    requires p < |src| && src[p] != '/'
    ensures LexToken(src, p).0 != Ok(Slash)
  {
    if Punctuation(src[p]).None? && Comparison(src[p]).None? {
      var kind := LexLiteral(src, p).0;
      assert kind.Ok? ==> kind.value == String || kind.value == Number || kind.value == Ident || IsKeyword(kind.value);
    }
  }

  // ---------------------------------------------------------------------
  // Properties of the tokens

  /** At a token, `next` skips nothing and reads exactly the lexeme `LexToken` gives. */
  lemma ScanAtToken(src: seq<char>, pos: nat, line: nat)
    requires pos < |src| && !IsWs(src[pos]) && src[pos] != '/'
    ensures Scan(src, pos, line) == Lexeme(src, pos, line)
  {
    SkipAtToken(src, pos);
    assert src[pos..pos] == [];
  }

  /** Each of ( ) { } ; , . - + * is a token by itself, on the current line. */
  lemma PunctuationToken(src: seq<char>, pos: nat, line: nat)
    requires pos < |src| && src[pos] in "(){};,.-+*"
    ensures Scan(src, pos, line) == Moved(Some(Ok(Token(Punctuation(src[pos]).value, [src[pos]], line))), pos + 1, line, [])
  {
    SkipAtToken(src, pos);
    assert src[pos..pos] == [];
    assert src[pos..pos + 1] == [src[pos]];
  }

  /** The operator lexeme at `pos` as `Lexeme` reports it. */
  lemma ComparisonLexeme(src: seq<char>, pos: nat, line: nat)
    requires pos < |src| && src[pos] in "!=<>"
    ensures var (one, two) := Comparison(src[pos]).value;
      Lexeme(src, pos, line) ==
        if pos + 1 < |src| && src[pos + 1] == '='
        then Moved(Some(Ok(Token(two, [src[pos], '='], line))), pos + 2, line, [])
        else Moved(Some(Ok(Token(one, [src[pos]], line))), pos + 1, line, [])
  {
    assert Punctuation(src[pos]).None?;
    var (one, two) := Comparison(src[pos]).value;
    if pos + 1 < |src| && src[pos + 1] == '=' {
      assert LexToken(src, pos) == (Ok(two), pos + 2);
      assert src[pos..pos + 2] == [src[pos], '='];
      NoNewlines(src[pos..pos + 2]);
    } else {
      assert LexToken(src, pos) == (Ok(one), pos + 1);
      assert src[pos..pos + 1] == [src[pos]];
      NoNewlines(src[pos..pos + 1]);
    }
  }

  /** ! = < > take a following `=` into a two-character token, and are one-character tokens otherwise. */
  lemma ComparisonToken(src: seq<char>, pos: nat, line: nat)
    requires pos < |src| && src[pos] in "!=<>"
    ensures var (one, two) := Comparison(src[pos]).value;
      Scan(src, pos, line) ==
        if pos + 1 < |src| && src[pos + 1] == '='
        then Moved(Some(Ok(Token(two, [src[pos], '='], line))), pos + 2, line, [])
        else Moved(Some(Ok(Token(one, [src[pos]], line))), pos + 1, line, [])
  {
    ScanAtToken(src, pos, line);
    ComparisonLexeme(src, pos, line);
  }

  /** Digits, then an optional `.` followed by optional digits: `123.` is a numeral. */
  predicate IsNumeral(s: seq<char>) {
    && |s| > 0 && IsDigit(s[0])
    && (forall k :: 0 <= k < |s| ==> IsDigit(s[k]) || s[k] == '.')
    && (forall i, j :: 0 <= i < j < |s| && s[i] == '.' ==> s[j] != '.')
  }

  /** Letters, digits and the quote are neither punctuation nor operators. */
  lemma NotOperator(c: char)
    requires IsAlnum(c) || c == '"'
    ensures Punctuation(c).None? && Comparison(c).None?
  {
  }

  /** Characters that are letters, digits or `.` add no line. */
  lemma NoNewlinesIn(src: seq<char>, pos: nat, q: nat)
    requires pos <= q <= |src|
    requires forall k :: pos <= k < q ==> IsAlnum(src[k]) || src[k] == '.'
    ensures Newlines(src[pos..q]) == 0
  {
    var s := src[pos..q];
    forall k | 0 <= k < |s|
      ensures s[k] != '\n'
    {
      assert s[k] == src[pos + k];
    }
    NoNewlines(s);
  }

  /** A numeral lexeme: the longest numeral starting with the digit at `pos`. */
  lemma LexNumber(src: seq<char>, pos: nat)
    requires pos < |src| && IsDigit(src[pos])
    ensures var (kind, q) := LexToken(src, pos);
      && kind == Ok(Number) && IsNumeral(src[pos..q])
      && (q == |src| || (!IsDigit(src[q]) && (src[q] == '.' ==> '.' in src[pos..q])))
  {
    NotOperator(src[pos]);
    var q := NumberEnd(src, pos + 1);
    var s := src[pos..q];
    var a := SpanWhile(src, pos + 1, IsDigit);
    SpanWhileStops(src, pos + 1, IsDigit);
    if a < |src| && src[a] == '.' {
      SpanWhileStops(src, a + 1, IsDigit);
      assert s[a - pos] == '.';
      forall i, j | 0 <= i < j < |s| && s[i] == '.'
        ensures s[j] != '.'
      {
        assert s[i] == src[pos + i] && s[j] == src[pos + j];
      }
    } else {
      assert forall k :: 0 <= k < |s| ==> s[k] == src[pos + k];
    }
  }

  /** An identifier lexeme: the longest run of letters, digits and `_`, typed by the keyword table. */
  lemma LexIdentifier(src: seq<char>, pos: nat)
    requires pos < |src| && IsAlpha(src[pos])
    ensures var (kind, q) := LexToken(src, pos);
      && kind == Ok(Identify(src[pos..q]))
      && (forall k :: pos <= k < q ==> IsAlnum(src[k]))
      && (q == |src| || !IsAlnum(src[q]))
  {
    NotOperator(src[pos]);
    SpanWhileStops(src, pos + 1, IsAlnum);
  }

  /** A numeral lexeme adds no line and is a token. */
  lemma NumberLexeme(src: seq<char>, pos: nat, line: nat)
    requires pos < |src| && IsDigit(src[pos])
    ensures var q := LexToken(src, pos).1;
      Lexeme(src, pos, line) == Moved(Some(Ok(Token(Number, src[pos..q], line))), q, line, [])
  {
    LexNumber(src, pos);
    var q := LexToken(src, pos).1;
    var s := src[pos..q];
    forall k | pos <= k < q
      ensures IsAlnum(src[k]) || src[k] == '.'
    {
      assert src[k] == s[k - pos];
    }
    NoNewlinesIn(src, pos, q);
  }

  /** A number token is the longest numeral at the cursor, on the current line. */
  lemma NumberToken(src: seq<char>, pos: nat, line: nat)
    requires pos < |src| && IsDigit(src[pos])
    ensures var r := Scan(src, pos, line);
      && r.Moved? && r.item.Some? && r.item.value.Ok?
      && var tok := r.item.value.value;
      && tok.typ == Number && tok.lexeme == src[pos..r.pos] && IsNumeral(tok.lexeme) && tok.line == line
      && (r.pos == |src| || (!IsDigit(src[r.pos]) && (src[r.pos] == '.' ==> '.' in tok.lexeme)))
  {
    ScanAtToken(src, pos, line);
    LexNumber(src, pos);
    NumberLexeme(src, pos, line);
  }

  /** An identifier token is the longest run of letters, digits and `_` at the cursor, typed by the keyword table. */
  lemma IdentifierToken(src: seq<char>, pos: nat, line: nat)
    requires pos < |src| && IsAlpha(src[pos])
    ensures var r := Scan(src, pos, line);
      && r.Moved? && r.item.Some? && r.item.value.Ok?
      && var tok := r.item.value.value;
      && tok.lexeme == src[pos..r.pos] && tok.typ == Identify(tok.lexeme) && tok.line == line
      && (forall k :: pos <= k < r.pos ==> IsAlnum(src[k]))
      && (r.pos == |src| || !IsAlnum(src[r.pos]))
  {
    ScanAtToken(src, pos, line);
    LexIdentifier(src, pos);
    NoNewlinesIn(src, pos, LexToken(src, pos).1);
  }

  /** A string lexeme runs through the first closing quote, or is unterminated and runs to the end. */
  lemma LexString(src: seq<char>, pos: nat)
    requires pos < |src| && src[pos] == '"'
    ensures var (kind, q) := LexToken(src, pos);
      && (kind == Ok(String) || kind == Err(UNTERMINATED))
      && (kind.Ok? <==> '"' in src[pos + 1..])
      && (kind.Ok? ==> pos + 2 <= q && src[q - 1] == '"' && '"' !in src[pos + 1..q - 1])
      && (kind.Err? ==> q == |src|)
  {
    NotOperator('"');
    UntilFinds(src, pos + 1, '"');
  }

  /** The string lexeme at `pos` as `Lexeme` reports it: a token through the closing quote, or the unterminated rest. */
  lemma StringLexeme(src: seq<char>, pos: nat, line: nat)
    requires pos < |src| && src[pos] == '"'
    ensures var r := Lexeme(src, pos, line);
      && ('"' in src[pos + 1..] ==>
            && r.item == Some(Ok(Token(String, src[pos..r.pos], r.line)))
            && pos + 2 <= r.pos && src[r.pos - 1] == '"' && '"' !in src[pos + 1..r.pos - 1])
      && ('"' !in src[pos + 1..] ==>
            r.item == Some(Err(Error(UNTERMINATED, r.line))) && r.pos == |src| && r.lex == src[pos..])
  {
    LexString(src, pos);
    var (kind, q) := LexToken(src, pos);
    if kind.Err? {
      assert src[pos..q] == src[pos..];
    }
  }

  /**
   * A string token runs through the closing quote, both quotes included, and
   * is on the line of its end; with no closing quote the rest of the source
   * is an "Unterminated string" error.
   */
  lemma StringToken(src: seq<char>, pos: nat, line: nat)
    requires pos < |src| && src[pos] == '"'
    ensures var r := Scan(src, pos, line);
      && r.Moved? && r.item.Some?
      && r.line == line + Newlines(src[pos..r.pos])
      && ('"' in src[pos + 1..] ==>
            && r.item == Some(Ok(Token(String, src[pos..r.pos], r.line)))
            && pos + 2 <= r.pos && src[r.pos - 1] == '"' && '"' !in src[pos + 1..r.pos - 1])
      && ('"' !in src[pos + 1..] ==>
            r.item == Some(Err(Error(UNTERMINATED, r.line))) && r.pos == |src| && r.lex == src[pos..])
  {
    ScanAtToken(src, pos, line);
    StringLexeme(src, pos, line);
  }

  /** Any other character is an "Unexpected character" error, left in `lex`. */
  lemma UnexpectedCharacter(src: seq<char>, pos: nat, line: nat)
    requires pos < |src|
    requires var c := src[pos]; !IsWs(c) && !IsAlnum(c) && c !in "(){};,.-+*/!=<>\""
    ensures Scan(src, pos, line) == Moved(Some(Err(Error(UNEXPECTED, line))), pos + 1, line, [src[pos]])
  {
    SkipAtToken(src, pos);
    assert src[pos..pos] == [];
    assert src[pos..pos + 1] == [src[pos]];
  }

  /** At the end of the source the first call yields EOF and every later call yields nothing. */
  lemma EndOfInput(src: seq<char>, line: nat)
    requires line > 0
    ensures Scan(src, |src|, line) == Moved(Some(Err(EOF)), |src|, 0, [])
    ensures Scan(src, |src|, 0) == Moved(None, |src|, 0, [])
  {
    assert SpanWhile(src, |src|, IsWs) == |src|;
    assert Round(src, |src|) == |src|;
    assert src[|src|..|src|] == [];
  }

  // ---------------------------------------------------------------------
  // The scanner

  /** What a call of `next` returns, or that it never returns. */
  datatype Outcome = Hangs | Yields(item: Option<TokenResult>)

  class Scanner {
    const src: seq<char>
    var pos: nat
    var line: nat
    var lex: seq<char>

    ghost predicate Valid()
      reads this
    {
      pos <= |src|
    }

    /**
     * Since the state (p0, line0, lex0), the cursor moved forward, every
     * character it passed was pushed to `lex`, and `line` grew by its newlines.
     */
    ghost predicate Consumed(p0: nat, line0: nat, lex0: seq<char>)
      reads this
    {
      p0 <= pos <= |src| && lex == lex0 + src[p0..pos] && line == line0 + Newlines(src[p0..pos])
    }

    /** Two moves in a row are one move. */
    lemma Chain(p0: nat, line0: nat, lex0: seq<char>, p1: nat, line1: nat, lex1: seq<char>)
      requires p0 <= p1 <= |src|
      requires lex1 == lex0 + src[p0..p1] && line1 == line0 + Newlines(src[p0..p1])
      requires Consumed(p1, line1, lex1)
      ensures Consumed(p0, line0, lex0)
    {
      Split(src, p0, p1, pos);
      AppendAssoc(lex0, src[p0..p1], src[p1..pos]);
    }

    /** `from_source`: at the start, on line 1, with an empty lexeme. */
    constructor FromSource(src: seq<char>)
      ensures Valid()
      ensures this.src == src && pos == 0 && line == 1 && lex == []
    {
      this.src := src;
      pos, line, lex := 0, 1, [];
    }

    /** `advance`: consumes the next character, if any. */
    method Advance() returns (c: Option<char>)
      requires Valid()
      modifies this
      ensures Valid()
      ensures c.None? <==> old(pos) == |src|
      ensures c.Some? ==> c.value == src[old(pos)] && pos == old(pos) + 1
      ensures c.None? ==> pos == old(pos)
      ensures Consumed(old(pos), old(line), old(lex))
    {
      if pos == |src| {
        assert src[pos..pos] == [];
        return None;
      }
      var ch := src[pos];
      assert src[pos..pos + 1] == [ch];
      pos := pos + 1;
      if ch == '\n' {
        line := line + 1;
      }
      lex := lex + [ch];
      c := Some(ch);
    }

    /** `advance_if`: consumes the next character only when it satisfies `f`. */
    method AdvanceIf(f: char -> bool) returns (c: Option<char>)
      requires Valid()
      modifies this
      ensures Valid()
      ensures c.Some? <==> old(pos) < |src| && f(src[old(pos)])
      ensures c.Some? ==> c.value == src[old(pos)] && pos == old(pos) + 1
      ensures c.None? ==> pos == old(pos)
      ensures Consumed(old(pos), old(line), old(lex))
    {
      if pos < |src| && f(src[pos]) {
        c := Advance();
      } else {
        assert src[pos..pos] == [];
        c := None;
      }
    }

    /** `advance_on`: consumes the next character only when it is one of `cand`. */
    method AdvanceOn(cand: seq<char>) returns (c: Option<char>)
      requires Valid()
      modifies this
      ensures Valid()
      ensures c.Some? <==> old(pos) < |src| && src[old(pos)] in cand
      ensures c.Some? ==> c.value == src[old(pos)] && pos == old(pos) + 1
      ensures c.None? ==> pos == old(pos)
      ensures Consumed(old(pos), old(line), old(lex))
    {
      c := AdvanceIf(ch => ch in cand);
    }

    /** `advance_while`: consumes characters as long as they satisfy `f`. */
    method AdvanceWhile(f: char -> bool)
      requires Valid()
      modifies this
      ensures Valid()
      ensures pos == SpanWhile(src, old(pos), f)
      ensures Consumed(old(pos), old(line), old(lex))
    {
      ghost var p0, line0, lex0 := pos, line, lex;
      ghost var p1, line1, lex1 := pos, line, lex;
      var c := AdvanceIf(f);
      Chain(p0, line0, lex0, p1, line1, lex1);
      while c.Some?
        invariant Valid() && Consumed(p0, line0, lex0)
        invariant SpanWhile(src, pos, f) == SpanWhile(src, p0, f)
        invariant c.None? ==> pos == SpanWhile(src, pos, f)
        decreases |src| - pos, if c.Some? then 1 else 0
      {
        p1, line1, lex1 := pos, line, lex;
        c := AdvanceIf(f);
        Chain(p0, line0, lex0, p1, line1, lex1);
      }
    }

    /**
     * `advance_on_exact`, as its doc comment describes it: when the source
     * continues with `expected`, consumes all of it and reports true;
     * otherwise consumes nothing.
     */
    method AdvanceOnExact(expected: seq<char>) returns (matched: bool)
      requires Valid()
      modifies this
      ensures Valid()
      ensures matched <==> StartsWith(src, old(pos), expected)
      ensures pos == if matched then old(pos) + |expected| else old(pos)
      ensures Consumed(old(pos), old(line), old(lex))
    {
      if pos + |expected| <= |src| && src[pos..pos + |expected|] == expected {
        line := line + Newlines(expected);
        lex := lex + expected;
        pos := pos + |expected|;
        matched := true;
      } else {
        assert src[pos..pos] == [];
        matched := false;
      }
    }

    /** `advance_until`: consumes through the next `t`, or to the end when there is none. */
    method AdvanceUntil(t: char) returns (found: bool)
      requires Valid()
      modifies this
      ensures Valid()
      ensures (pos, found) == Until(src, old(pos), t)
      ensures Consumed(old(pos), old(line), old(lex))
    {
      ghost var p0, line0, lex0 := pos, line, lex;
      AdvanceWhile(NotEq(t));
      SpanWhileStops(src, p0, NotEq(t));
      ghost var p1, line1, lex1 := pos, line, lex;
      var c := Advance();
      Chain(p0, line0, lex0, p1, line1, lex1);
      found := c.Some? && c.value == t;
    }

    /** The block comment loop of `skip_whitespace`, entered past the opening slash and star. */
    method SkipBlockComment()
      requires Valid()
      modifies this
      ensures Valid()
      ensures pos == BlockEnd(src, old(pos))
      ensures Consumed(old(pos), old(line), old(lex))
    {
      ghost var p0, line0, lex0 := pos, line, lex;
      while true
        invariant Valid() && Consumed(p0, line0, lex0)
        invariant BlockEnd(src, pos) == BlockEnd(src, p0)
        decreases |src| - pos
      {
        ghost var p1, line1, lex1 := pos, line, lex;
        var found := AdvanceUntil('*');
        Chain(p0, line0, lex0, p1, line1, lex1);
        if !found {
          return;
        }
        ghost var p2, line2, lex2 := pos, line, lex;
        var slash := AdvanceOn(['/']);
        Chain(p0, line0, lex0, p2, line2, lex2);
        if slash.Some? {
          return;
        }
      }
    }

    /** A `//` comment: when the input continues with it, consume it through the newline. */
    method SkipLineComment()
      requires Valid()
      modifies this
      ensures Valid()
      ensures pos == AfterLineComment(src, old(pos))
      ensures Consumed(old(pos), old(line), old(lex))
    {
      ghost var p0, line0, lex0 := pos, line, lex;
      var lineComment := AdvanceOnExact("//");
      if lineComment {
        ghost var q, lineq, lexq := pos, line, lex;
        var _ := AdvanceUntil('\n');
        Chain(p0, line0, lex0, q, lineq, lexq);
      }
    }

    /** A block comment: when the input continues with its opening, consume it through its close. */
    method SkipBlock()
      requires Valid()
      modifies this
      ensures Valid()
      ensures pos == AfterBlockComment(src, old(pos))
      ensures Consumed(old(pos), old(line), old(lex))
    {
      ghost var p0, line0, lex0 := pos, line, lex;
      var blockComment := AdvanceOnExact("/*");
      if blockComment {
        ghost var q, lineq, lexq := pos, line, lex;
        SkipBlockComment();
        Chain(p0, line0, lex0, q, lineq, lexq);
      }
    }

    /** One round of `skip_whitespace`: white space, a line comment, a block comment. */
    method SkipRound()
      requires Valid()
      modifies this
      ensures Valid()
      ensures pos == Round(src, old(pos))
      ensures Consumed(old(pos), old(line), old(lex))
    {
      ghost var p0, line0, lex0 := pos, line, lex;
      // the `while let` over white space of `skip_whitespace` is `advance_while`
      AdvanceWhile(IsWs);
      ghost var p1, line1, lex1 := pos, line, lex;
      SkipLineComment();
      Chain(p0, line0, lex0, p1, line1, lex1);
      ghost var p2, line2, lex2 := pos, line, lex;
      SkipBlock();
      Chain(p0, line0, lex0, p2, line2, lex2);
    }

    /**
     * `skip_whitespace`: rounds of white space and comments until the next
     * character is neither white space nor `/`; `lex` is then emptied.
     * Returns true where the source would call itself in an unchanged state
     * forever.
     */
    method SkipWhitespace() returns (hangs: bool)
      requires Valid()
      modifies this
      ensures Valid()
      ensures hangs <==> SkipEnd(src, old(pos)).None?
      ensures !hangs ==>
        && pos == SkipEnd(src, old(pos)).value
        && line == old(line) + Newlines(src[old(pos)..pos])
        && lex == []
      decreases |src| - pos
    {
      // where this call started: the recursion below repeats the call exactly when nothing was consumed
      var p0 := pos;
      SkipRound();
      if pos < |src| && (IsWs(src[pos]) || src[pos] == '/') {
        if pos == p0 {
          return true;
        }
        ghost var p1, line1 := pos, line;
        hangs := SkipWhitespace();
        if !hangs {
          Split(src, p0, p1, pos);
        }
      } else {
        hangs := false;
      }
      lex := [];
    }

    /** `make_token`: a token of the lexeme read and the current line; `lex` is emptied. */
    method MakeToken(typ: TokenType) returns (r: Option<TokenResult>)
      modifies this
      ensures r == Some(Ok(Token(typ, old(lex), line)))
      ensures lex == [] && pos == old(pos) && line == old(line)
    {
      r := Some(Ok(Token(typ, lex, line)));
      lex := [];
    }

    /** `make_error`: an error on the current line; unlike `make_token` it leaves `lex` as it is. */
    method MakeError(message: string) returns (r: Option<TokenResult>)
      ensures r == Some(Err(Error(message, line)))
    {
      r := Some(Err(Error(message, line)));
    }

    /** The number arm of `next` after its first digit. */
    method NumberTail()
      requires Valid()
      modifies this
      ensures Valid()
      ensures pos == NumberEnd(src, old(pos))
      ensures Consumed(old(pos), old(line), old(lex))
    {
      ghost var p0, line0, lex0 := pos, line, lex;
      AdvanceWhile(IsDigit);
      ghost var p1, line1, lex1 := pos, line, lex;
      var dot := AdvanceOn(['.']);
      if dot.Some? {
        ghost var p2, line2, lex2 := pos, line, lex;
        AdvanceWhile(IsDigit);
        Chain(p1, line1, lex1, p2, line2, lex2);
      }
      Chain(p0, line0, lex0, p1, line1, lex1);
    }

    /** The arms for ! = < > of `next`, once `c` has been consumed. */
    method ComparisonAfter(c: char, ghost start: nat, ghost startLine: nat) returns (item: Option<TokenResult>)
      requires Valid() && start + 1 == pos && src[start] == c && lex == [c]
      requires line == startLine + Newlines([c])
      requires Punctuation(c).None? && Comparison(c).Some?
      modifies this
      ensures Valid()
      ensures Lexeme(src, start, startLine) == Moved(item, pos, line, lex)
    {
      assert lex == src[start..pos];
      var (one, two) := Comparison(c).value;
      var eq := AdvanceOn(['=']);
      Split(src, start, start + 1, pos);
      item := MakeToken(if eq.Some? then two else one);
    }

    /** The string arm of `next`, once the opening quote has been consumed. */
    method StringAfter(ghost start: nat, ghost startLine: nat) returns (item: Option<TokenResult>)
      requires Valid() && start + 1 == pos && src[start] == '"' && lex == ['"']
      requires line == startLine
      modifies this
      ensures Valid()
      ensures Lexeme(src, start, startLine) == Moved(item, pos, line, lex)
    {
      assert lex == src[start..pos];
      NotOperator('"');
      var closed := AdvanceUntil('"');
      Split(src, start, start + 1, pos);
      if closed {
        item := MakeToken(String);
      } else {
        item := MakeError(UNTERMINATED);
      }
    }

    /** The number arm of `next`, once the first digit has been consumed. */
    method NumberAfter(c: char, ghost start: nat, ghost startLine: nat) returns (item: Option<TokenResult>)
      requires Valid() && start + 1 == pos && src[start] == c && lex == [c]
      requires line == startLine && IsDigit(c)
      modifies this
      ensures Valid()
      ensures Lexeme(src, start, startLine) == Moved(item, pos, line, lex)
    {
      assert lex == src[start..pos];
      NotOperator(c);
      NumberTail();
      Split(src, start, start + 1, pos);
      item := MakeToken(Number);
    }

    /** The identifier arm of `next`, once the first letter has been consumed. */
    method IdentifierAfter(c: char, ghost start: nat, ghost startLine: nat) returns (item: Option<TokenResult>)
      requires Valid() && start + 1 == pos && src[start] == c && lex == [c]
      requires line == startLine && IsAlpha(c)
      modifies this
      ensures Valid()
      ensures Lexeme(src, start, startLine) == Moved(item, pos, line, lex)
    {
      assert lex == src[start..pos];
      NotOperator(c);
      AdvanceWhile(IsAlnum);
      Split(src, start, start + 1, pos);
      var typ := Identify(lex);
      item := MakeToken(typ);
    }

    /**
     * The `match c` of `next`, once `c` has been consumed: reads the rest of
     * the lexeme `LexToken` describes and makes its token or error.
     */
    method LexAfter(c: char, ghost start: nat, ghost startLine: nat) returns (item: Option<TokenResult>)
      requires Valid() && start + 1 == pos && src[start] == c && lex == [c]
      requires line == startLine + Newlines([c])
      modifies this
      ensures Valid()
      ensures Lexeme(src, start, startLine) == Moved(item, pos, line, lex)
    {
      assert lex == src[start..pos];
      if Punctuation(c).Some? {
        assert src[pos..pos] == [];
        item := MakeToken(Punctuation(c).value);
      } else if Comparison(c).Some? {
        item := ComparisonAfter(c, start, startLine);
      } else if c == '"' {
        assert Newlines([c]) == 0;
        item := StringAfter(start, startLine);
      } else if IsDigit(c) {
        assert Newlines([c]) == 0;
        item := NumberAfter(c, start, startLine);
      } else if IsAlpha(c) {
        assert Newlines([c]) == 0;
        item := IdentifierAfter(c, start, startLine);
      } else {
        assert src[pos..pos] == [];
        item := MakeError(UNEXPECTED);
      }
    }

    /**
     * `next`: skips white space and comments, then yields the next token or
     * lexical error; at the end of the source EOF once, then nothing.
     */
    method Next() returns (r: Outcome)
      requires Valid()
      modifies this
      ensures Valid()
      ensures Scan(src, old(pos), old(line)) == if r.Hangs? then Hang else Moved(r.item, pos, line, lex)
    {
      var hangs := SkipWhitespace();
      if hangs {
        ScanHang(src, old(pos), old(line));
        return Hangs;
      }
      ghost var p, l1 := pos, line;
      var c := Advance();
      match c {
        case None =>
          assert src[p..p] == [];
          ScanEnd(src, old(pos), old(line));
          if line > 0 {
            line := 0;
            r := Yields(Some(Err(EOF)));
          } else {
            r := Yields(None);
          }
        case Some(ch) =>
          assert src[p..p + 1] == [ch];
          ScanLexeme(src, old(pos), old(line), p, l1);
          var item := LexAfter(ch, p, l1);
          r := Yields(item);
      }
    }
  }
}

/**
  The parser core of `new-parser-again`. Its source (`parser.rs`, the lexer
  and the token definitions) is not part of this model: what follows states,
  as definitions, how the modelled grammar code uses it.

  - A token tree is an identifier, a punctuation token, a literal, or a
    delimited group whose interior was matched at lex time.
  - A parser is the remaining token trees of one scope, the span of that
    scope, and the append-only log of diagnostics shared by every cursor of
    one top-level parse. Child cursors start from the parent's log and hand
    the log back when they are done.
  - `take` consumes one matching token or returns nothing and records
    nothing; `peek` looks without consuming; `emit_error` appends the
    message with the span of the next token (the scope's span when the
    scope is exhausted) and the caller fails.
  - Keywords are identifiers compared by their text; punctuation tokens are
    single token trees.
 */
module Parsing {
  import opened Common
  import opened Spans

  datatype Delimiter = Parenthesis | Brace | Bracket

  datatype PunctKind = Colon | Semicolon | Comma | Add | LessThan | GreaterThan | RightArrow

  datatype TokenTree =
    | IdentTree(span: Span)
    | PunctTree(kind: PunctKind, span: Span)
    | LiteralTree(span: Span)
    | Group(delimiter: Delimiter, trees: seq<TokenTree>, span: Span)

  datatype ParseError = ParseError(message: string, span: Span)

  type Log = seq<ParseError>

  datatype Parser = Parser(rest: seq<TokenTree>, full: Span, log: Log)

  /** `ParseResult`: a value and the advanced cursor, or the log holding the
      diagnostic that was recorded for the failure. */
  datatype ParseResult<T> = Ok(value: T, parser: Parser) | Err(log: Log)

  /** A fixed token (a keyword or a punctuation token), known by its span. */
  datatype Token = Token(span: Span)

  /** What a `peek`/`take` asks for. */
  datatype Want = AnIdent | AKeyword(word: string) | APunct(kind: PunctKind)

  predicate Matches(t: TokenTree, w: Want)
  {
    match w
    case AnIdent => t.IdentTree?
    case AKeyword(word) => t.IdentTree? && AsStr(t.span) == word
    case APunct(k) => t.PunctTree? && t.kind == k
  }

  predicate IsEmpty(p: Parser)
  {
    |p.rest| == 0
  }

  /** `peek`: the span of the next token when it is the wanted one. */
  function Peek(p: Parser, w: Want): (r: Option<Span>)
  {
    if |p.rest| > 0 && Matches(p.rest[0], w) then Some(p.rest[0].span) else None
  }

  datatype Taken = Took(span: Span, parser: Parser) | NotTaken

  /** `take`: consume the next token when it is the wanted one. */
  function Take(p: Parser, w: Want): (r: Taken)
    ensures r.Took? <==> Peek(p, w).Some?
    ensures r.Took? ==> r.span == p.rest[0].span && r.parser == p.(rest := p.rest[1..])
  {
    match Peek(p, w)
    case Some(s) => Took(s, p.(rest := p.rest[1..]))
    case None => NotTaken
  }

  /** The span a diagnostic recorded now points at. */
  function CurrentSpan(p: Parser): Span
  {
    if |p.rest| > 0 then p.rest[0].span else p.full
  }

  /** `emit_error`: the log after recording one diagnostic. */
  function EmitError(p: Parser, message: string): (log: Log)
    ensures p.log < log
  {
    p.log + [ParseError(message, CurrentSpan(p))]
  }

  /** A delimited group entered by `enter_delimited`. */
  datatype Entered = Entered(inner: Parser, span: Span, after: Parser)

  /** `enter_delimited`: a child cursor over the interior of the next group,
      the group's span, and the parent advanced past the group. */
  function EnterDelimited(p: Parser, d: Delimiter): (r: Option<Entered>)
    ensures r.Some? <==> |p.rest| > 0 && p.rest[0].Group? && p.rest[0].delimiter == d
    ensures r.Some? ==>
              && r.value.inner == Parser(p.rest[0].trees, p.rest[0].span, p.log)
              && r.value.span == p.rest[0].span
              && r.value.after == p.(rest := p.rest[1..])
  {
    if |p.rest| > 0 && p.rest[0].Group? && p.rest[0].delimiter == d then
      Some(Entered(Parser(p.rest[0].trees, p.rest[0].span, p.log), p.rest[0].span,
                   p.(rest := p.rest[1..])))
    else None
  }

  function PunctText(k: PunctKind): string
  {
    match k
    case Colon => ":"
    case Semicolon => ";"
    case Comma => ","
    case Add => "+"
    case LessThan => "<"
    case GreaterThan => ">"
    case RightArrow => "->"
  }

  /** The diagnostic of a missing fixed token; its exact text is defined outside the modelled files. */
  function Expected(w: Want): string
  {
    match w
    case AnIdent => "expected an identifier"
    case AKeyword(word) => "expected `" + word + "`"
    case APunct(k) => "expected `" + PunctText(k) + "`"
  }

  // ------------------------------------------------- how a parse may move

  /** `q.rest` is what is left of `s` after consuming some prefix of it. */
  predicate Suffix(q: seq<TokenTree>, s: seq<TokenTree>)
  {
    |q| <= |s| && q == s[|s| - |q|..]
  }

  /** `q` is `p` after consuming a prefix of its tokens and appending to its log. */
  predicate Continues(p: Parser, q: Parser)
  {
    Suffix(q.rest, p.rest) && p.log <= q.log
  }

  /** A parse from `p` consumed a prefix (success) or recorded a diagnostic (failure). */
  predicate Steps<T>(p: Parser, r: ParseResult<T>)
  {
    match r
    case Ok(_, q) => Continues(p, q)
    case Err(log) => p.log < log
  }

  /** As `Steps`, and a success consumed at least one token. */
  predicate Advances<T>(p: Parser, r: ParseResult<T>)
  {
    Steps(p, r) && (r.Ok? ==> |r.parser.rest| < |p.rest|)
  }

  /** A `parse_to_end` from `p`: success consumed the whole scope. */
  predicate Finishes<T>(p: Parser, r: ParseResult<T>)
  {
    match r
    case Ok(_, q) => q.rest == [] && p.log <= q.log
    case Err(log) => p.log < log
  }

  /** A `Parse` implementation outside the modelled files: every success consumes at
      least one token, every failure records a diagnostic. */
  ghost predicate Productive<T>(f: Parser -> ParseResult<T>)
  {
    forall p :: Advances(p, f(p))
  }

  /** A `ParseToEnd` implementation outside the modelled files. */
  ghost predicate ToEnd<T>(f: Parser -> ParseResult<T>)
  {
    forall p :: Finishes(p, f(p))
  }

  lemma SuffixTransitive(a: seq<TokenTree>, b: seq<TokenTree>, c: seq<TokenTree>)
    requires Suffix(a, b) && Suffix(b, c)
    ensures Suffix(a, c)
  {
    assert c[|c| - |b|..][|b| - |a|..] == c[|c| - |a|..];
  }

  lemma ContinuesTransitive(p: Parser, q: Parser, r: Parser)
    requires Continues(p, q) && Continues(q, r)
    ensures Continues(p, r)
  {
    SuffixTransitive(r.rest, q.rest, p.rest);
  }

  /**
    `parser.parse()` of a keyword or punctuation token: the token itself when
    it comes next, otherwise a recorded diagnostic.
   */
  function ParseToken(p: Parser, w: Want): (r: ParseResult<Token>)
    ensures Advances(p, r)
    ensures r.Ok? <==> |p.rest| > 0 && Matches(p.rest[0], w)
    ensures r.Ok? ==> r.value == Token(p.rest[0].span) && r.parser == p.(rest := p.rest[1..])
    ensures r.Err? ==> r.log == EmitError(p, Expected(w))
  {
    match Take(p, w)
    case Took(s, q) => Ok(Token(s), q)
    case NotTaken => Err(EmitError(p, Expected(w)))
  }

  /** `CommaToken` as a `Parse` implementation. */
  function ParseComma(p: Parser): (r: ParseResult<Token>)
    ensures Advances(p, r)
    ensures r.Ok? <==> |p.rest| > 0 && Matches(p.rest[0], APunct(Comma))
  {
    ParseToken(p, APunct(Comma))
  }
}

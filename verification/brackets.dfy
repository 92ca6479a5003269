/**
  Bracket wrappers (`new-parser-again/src/brackets.rs`). The source stamps out
  `Braces`, `Parens` and `SquareBrackets` from one macro; here they are one
  type, `Bracketed`, whose operations take the delimiter kind. A wrapper
  holds the value read from inside a delimited group and the group's span.
 */
module Brackets {
  import opened Common
  import opened Spans
  import opened Parsing

  datatype Bracketed<T> = Bracketed(inner: T, span: Span)

  /** The diagnostic of each instantiation when its opening delimiter is missing. */
  function OpeningError(d: Delimiter): string
  {
    match d
    case Brace => "expected an opening brace"
    case Parenthesis => "expected opening parenthesis"
    case Bracket => "expected an opening square bracket"
  }

  /** `get` / `into_inner` and `span` give back exactly what `new` stored. */
  lemma AccessorsReturnStored<T>(inner: T, span: Span)
    ensures Bracketed(inner, span).inner == inner && Bracketed(inner, span).span == span
  {
  }

  /** The cursor over the interior of the group that comes next. */
  function Interior(p: Parser): Parser
    requires |p.rest| > 0 && p.rest[0].Group?
  {
    Parser(p.rest[0].trees, p.rest[0].span, p.log)
  }

  predicate OpensWith(p: Parser, d: Delimiter)
  {
    |p.rest| > 0 && p.rest[0].Group? && p.rest[0].delimiter == d
  }

  /** The parent past the group that comes next, holding the log the interior parse ended with. */
  function GroupExit(p: Parser, inner: Parser): Parser
    requires |p.rest| > 0
  {
    p.(rest := p.rest[1..], log := inner.log)
  }

  /** Wrap the interior value and hand the child's log back to the parent. */
  function Close<T>(e: Entered, r: ParseResult<T>): (out: ParseResult<Bracketed<T>>)
  {
    match r
    case Err(log) => Err(log)
    case Ok(v, q) => Ok(Bracketed(v, e.span), e.after.(log := q.log))
  }

  /**
    `try_parse`: with no opening delimiter, nothing is consumed and nothing is
    recorded; otherwise the interior is read to its end, and the wrapper holds
    that value and the group's span, with the parent moved past the group.
   */
  function TryParse<T>(p: Parser, d: Delimiter, toEnd: Parser -> ParseResult<T>)
    : (r: ParseResult<Option<Bracketed<T>>>)
    requires ToEnd(toEnd)
    ensures Steps(p, r)
    ensures !OpensWith(p, d) ==> r == Ok(None, p)
    ensures r.Ok? && r.value.Some? ==>
              && OpensWith(p, d)
              && toEnd(Interior(p)).Ok?
              && r.value.value == Bracketed(toEnd(Interior(p)).value, p.rest[0].span)
              && r.parser == GroupExit(p, toEnd(Interior(p)).parser)
    ensures OpensWith(p, d) && toEnd(Interior(p)).Err? ==> r == Err(toEnd(Interior(p)).log)
    ensures OpensWith(p, d) && r.Ok? ==> r.value.Some?
  {
    match EnterDelimited(p, d)
    case None => Ok(None, p)
    case Some(e) =>
      match Close(e, toEnd(e.inner))
      case Err(log) => Err(log)
      case Ok(b, q) => Ok(Some(b), q)
  }

  /**
    `Parse` for a bracket wrapper: as `try_parse`, but a missing opening
    delimiter records the kind's own diagnostic and fails.
   */
  function Parse<T>(p: Parser, d: Delimiter, toEnd: Parser -> ParseResult<T>)
    : (r: ParseResult<Bracketed<T>>)
    requires ToEnd(toEnd)
    ensures Advances(p, r)
    ensures !OpensWith(p, d) ==> r == Err(EmitError(p, OpeningError(d)))
    ensures OpensWith(p, d) && toEnd(Interior(p)).Err? ==> r == Err(toEnd(Interior(p)).log)
    ensures r.Ok? <==> OpensWith(p, d) && toEnd(Interior(p)).Ok?
    ensures r.Ok? ==>
              && r.value == Bracketed(toEnd(Interior(p)).value, p.rest[0].span)
              && r.parser == GroupExit(p, toEnd(Interior(p)).parser)
  {
    match EnterDelimited(p, d)
    case None => Err(EmitError(p, OpeningError(d)))
    case Some(e) => Close(e, toEnd(e.inner))
  }

  function Lift<T>(r: ParseResult<Bracketed<T>>): ParseResult<Option<Bracketed<T>>>
  {
    match r
    case Err(log) => Err(log)
    case Ok(b, q) => Ok(Some(b), q)
  }

  /** Where the delimiter is present, `try_parse` is `Parse` with the value wrapped in `Some`. */
  lemma TryParseAgreesWithParse<T>(p: Parser, d: Delimiter, toEnd: Parser -> ParseResult<T>)
    requires ToEnd(toEnd)
    ensures OpensWith(p, d) ==> TryParse(p, d, toEnd) == Lift(Parse(p, d, toEnd))
    ensures !OpensWith(p, d) ==> TryParse(p, d, toEnd) == Ok(None, p) && Parse(p, d, toEnd).Err?
  {
  }

  /** A caller-supplied `on_error`: given the leftover interior, it records a diagnostic. */
  ghost predicate Reports(onError: Parser -> Log)
  {
    forall q: Parser :: q.log < onError(q)
  }

  /** Read one `T` from the interior; leftover interior tokens go to `on_error`. */
  function AllInner<T>(e: Entered, parse: Parser -> ParseResult<T>, onError: Parser -> Log)
    : ParseResult<Bracketed<T>>
  {
    match parse(e.inner)
    case Err(log) => Err(log)
    case Ok(v, q) =>
      if !IsEmpty(q) then Err(onError(q))
      else Ok(Bracketed(v, e.span), e.after.(log := q.log))
  }

  /**
    `parse_all_inner`: a missing opening delimiter records the kind's
    diagnostic; otherwise one `T` is parsed from the interior, and if interior
    tokens remain the parse fails through `on_error`.
   */
  function ParseAllInner<T>(p: Parser, d: Delimiter, parse: Parser -> ParseResult<T>,
                            onError: Parser -> Log)
    : (r: ParseResult<Bracketed<T>>)
    requires Productive(parse) && Reports(onError)
    ensures Advances(p, r)
    ensures !OpensWith(p, d) ==> r == Err(EmitError(p, OpeningError(d)))
    ensures OpensWith(p, d) && parse(Interior(p)).Err? ==> r == Err(parse(Interior(p)).log)
    ensures OpensWith(p, d) && parse(Interior(p)).Ok? && !IsEmpty(parse(Interior(p)).parser) ==>
              r == Err(onError(parse(Interior(p)).parser))
    ensures r.Ok? <==> OpensWith(p, d) && parse(Interior(p)).Ok? && IsEmpty(parse(Interior(p)).parser)
    ensures r.Ok? ==>
              && r.value == Bracketed(parse(Interior(p)).value, p.rest[0].span)
              && r.parser == GroupExit(p, parse(Interior(p)).parser)
  {
    match EnterDelimited(p, d)
    case None => Err(EmitError(p, OpeningError(d)))
    case Some(e) => AllInner(e, parse, onError)
  }

  /** `try_parse_all_inner`: `Ok(None)` without the delimiter, else as `parse_all_inner`. */
  function TryParseAllInner<T>(p: Parser, d: Delimiter, parse: Parser -> ParseResult<T>,
                               onError: Parser -> Log)
    : (r: ParseResult<Option<Bracketed<T>>>)
    requires Productive(parse) && Reports(onError)
    ensures Steps(p, r)
    ensures !OpensWith(p, d) ==> r == Ok(None, p)
    ensures OpensWith(p, d) && parse(Interior(p)).Err? ==> r == Err(parse(Interior(p)).log)
    ensures OpensWith(p, d) && parse(Interior(p)).Ok? && !IsEmpty(parse(Interior(p)).parser) ==>
              r == Err(onError(parse(Interior(p)).parser))
    ensures r.Ok? <==>
              !OpensWith(p, d) || (parse(Interior(p)).Ok? && IsEmpty(parse(Interior(p)).parser))
    ensures OpensWith(p, d) && r.Ok? ==>
              && r.value == Some(Bracketed(parse(Interior(p)).value, p.rest[0].span))
              && r.parser == GroupExit(p, parse(Interior(p)).parser)
  {
    match EnterDelimited(p, d)
    case None => Ok(None, p)
    case Some(e) => Lift(AllInner(e, parse, onError))
  }

  /** Where the delimiter is present, `try_parse_all_inner` behaves exactly like `parse_all_inner`. */
  lemma TryParseAllInnerAgrees<T>(p: Parser, d: Delimiter, parse: Parser -> ParseResult<T>,
                                  onError: Parser -> Log)
    requires Productive(parse) && Reports(onError)
    requires OpensWith(p, d)
    ensures TryParseAllInner(p, d, parse, onError) == Lift(ParseAllInner(p, d, parse, onError))
  {
  }

  // -------------------------------------------------------- angle brackets

  /** `AngleBrackets`: `<` and `>` are ordinary tokens, kept with the inner value. */
  datatype AngleBrackets<T> = AngleBrackets(lessThanToken: Token, inner: T, greaterThanToken: Token)

  /**
    `AngleBrackets::span`: the join of the `<` token's span and the `>` token's
    span, which for a `<` before its `>` runs from the one to the other.
   */
  function AngleSpan<T>(a: AngleBrackets<T>): (r: Span)
    requires a.lessThanToken.span.src == a.greaterThanToken.span.src
    ensures Contains(r, a.lessThanToken.span) && Contains(r, a.greaterThanToken.span)
    ensures a.lessThanToken.span.end <= a.greaterThanToken.span.start ==>
              r.start == a.lessThanToken.span.start && r.end == a.greaterThanToken.span.end
  {
    Cover(a.lessThanToken.span, a.greaterThanToken.span)
  }
}

/**
  Identifiers of the new parser (`new-parser-again/src/ident.rs`). An ident
  is nothing but the span of its text, so its derived equality is equality of
  spans: the same name at two positions gives two different idents.
 */
module Idents {
  import opened Common
  import opened Spans
  import opened Parsing

  datatype Ident = Ident(span: Span)

  /** `Ident::as_str`: the source text under the ident's span. */
  function Text(i: Ident): (t: string)
    ensures |t| == i.span.end - i.span.start
  {
    AsStr(i.span)
  }

  /** `Peek for Ident`: the upcoming identifier, without consuming it. */
  function PeekIdent(p: Parser): (r: Option<Ident>)
    ensures r.Some? <==> |p.rest| > 0 && p.rest[0].IdentTree?
    ensures r.Some? ==> r.value.span == p.rest[0].span
  {
    match Peek(p, AnIdent)
    case Some(s) => Some(Ident(s))
    case None => None
  }

  const ExpectedIdent := "expected an identifier"

  /**
    `Parse for Ident`: succeeds exactly when an identifier comes next and then
    consumes exactly that token; otherwise records "expected an identifier"
    at the next token and fails.
   */
  function ParseIdent(p: Parser): (r: ParseResult<Ident>)
    ensures Advances(p, r)
    ensures r.Ok? <==> |p.rest| > 0 && p.rest[0].IdentTree?
    ensures r.Ok? ==> r.value == Ident(p.rest[0].span) && r.parser == p.(rest := p.rest[1..])
    ensures r.Err? ==> r.log == p.log + [ParseError(ExpectedIdent, CurrentSpan(p))]
  {
    match Take(p, AnIdent)
    case Took(s, q) => Ok(Ident(s), q)
    case NotTaken => Err(EmitError(p, ExpectedIdent))
  }

  /** Peeking names the very ident that parsing would consume. */
  lemma PeekAgreesWithParse(p: Parser)
    ensures PeekIdent(p).Some? <==> ParseIdent(p).Ok?
    ensures PeekIdent(p).Some? ==> PeekIdent(p).value == ParseIdent(p).value
  {
  }

  /** Idents are equal exactly when their spans are; equal texts are not enough. */
  lemma IdentEqualityIsPositional(a: Ident, b: Ident)
    ensures a == b <==> a.span == b.span
    ensures a.span.start != b.span.start ==> a != b
  {
  }

  /** Two occurrences of `x` in `x x` are different idents with the same text. */
  lemma SameTextDifferentIdents()
    ensures var a := Ident(RawSpan("x x", 0, 1, None));
            var b := Ident(RawSpan("x x", 2, 3, None));
            Text(a) == Text(b) && a != b
  {
    var a := Ident(RawSpan("x x", 0, 1, None));
    var b := Ident(RawSpan("x x", 2, 3, None));
    assert Text(a) == "x" && Text(b) == "x";
  }
}

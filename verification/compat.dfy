/**
  The bridge from the new parser's spans and idents to the compiler's
  (`sway-core/src/new_parser_compat.rs`). Both span types are `Spans.Span`
  here; the compiler's ident (`sway_types::Ident`, not part of this model)
  is taken to be its span, read through `as_str` like the parser's.
 */
module Compat {
  import opened Common
  import opened Spans
  import Idents

  datatype SwayIdent = SwayIdent(span: Span)

  function SwayText(i: SwayIdent): string
  {
    AsStr(i.span)
  }

  /**
    `span_from`: the same text, start and end, with no path. The `unwrap` of
    the bounds-checked constructor cannot fail, since the parser's span is
    already in bounds.
   */
  function SpanFrom(s: Span): (r: Span)
    ensures r.src == s.src && r.start == s.start && r.end == s.end
    ensures r.path == None
    ensures AsStr(r) == AsStr(s)
  {
    var built := New(s.src, s.start, s.end, None);
    assert built.Some?;
    built.value
  }

  /** `ident_from`: the compiler's ident over `span_from` of the ident's span. */
  function IdentFrom(i: Idents.Ident): (r: SwayIdent)
    ensures r.span == SpanFrom(i.span)
    ensures SwayText(r) == Idents.Text(i)
  {
    SwayIdent(SpanFrom(i.span))
  }

  /** Converting twice changes nothing more; a span without a path converts to itself. */
  lemma SpanFromIdempotent(s: Span)
    ensures SpanFrom(SpanFrom(s)) == SpanFrom(s)
    ensures SpanFrom(s) == s <==> s.path == None
  {
  }

  /** Two parser idents convert to the same compiler ident exactly when they cover the same range of the same text. */
  lemma IdentFromInjectiveUpToPath(a: Idents.Ident, b: Idents.Ident)
    ensures IdentFrom(a) == IdentFrom(b) <==>
              a.span.src == b.span.src && a.span.start == b.span.start && a.span.end == b.span.end
  {
  }
}

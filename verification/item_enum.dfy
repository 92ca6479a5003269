/**
  Enum items (`new-parser-again/src/item/item_enum.rs`):
  `[pub] enum Name [<T, ...>] { Variant: Ty, ... }`.
 */
module ItemEnums {
  import opened Common
  import opened Spans
  import opened Parsing
  import opened Idents
  import opened Punctuation
  import opened Brackets
  import opened Nodes
  import opened ItemHeads

  datatype ItemEnum = ItemEnum(
    visibility: Option<Token>,
    enumToken: Token,
    name: Ident,
    generics: Option<GenericParams>,
    fields: Bracketed<Punctuated<TypeField, Token>>)

  /** The spans an enum's span is built from lie in one source text. */
  predicate SameSource(e: ItemEnum)
  {
    (if e.visibility.Some? then e.visibility.value.span else e.enumToken.span).src == e.fields.span.src
  }

  /**
    `ItemEnum::span`: from `pub` (or `enum` when there is no `pub`) to the end
    of the variants' braces, as the join of those two spans.
   */
  function EnumSpan(e: ItemEnum): (r: Span)
    requires SameSource(e)
    ensures var first := if e.visibility.Some? then e.visibility.value.span else e.enumToken.span;
            && Contains(r, first) && Contains(r, e.fields.span)
            && (first.end <= e.fields.span.start ==>
                  r.start == first.start && r.end == e.fields.span.end)
  {
    var first := if e.visibility.Some? then e.visibility.value.span else e.enumToken.span;
    Cover(first, e.fields.span)
  }

  /** The variants: a comma-separated list of fields read to the end of the braces. */
  function ParseFields(p: Parser, field: Parser -> ParseResult<TypeField>)
    : (r: ParseResult<Punctuated<TypeField, Token>>)
    requires Productive(field)
    ensures Finishes(p, r)
    ensures IsEmpty(p) ==> r == Ok(Punctuated([], None), p)
  {
    Punctuation.ParseToEnd(p, field, ParseComma)
  }

  /**
    `Parse for ItemEnum`, with the parsers of generic parameters and of one
    variant as parameters. Generics are parsed exactly when a `<` follows the
    name; the variants are a comma-separated list read to the end of the
    braces that must come next. The enum is accepted exactly when its head
    and then its body are, and it is assembled from their values.
   */
  function ParseItemEnum(p: Parser, generics: Parser -> ParseResult<GenericParams>,
                         field: Parser -> ParseResult<TypeField>)
    : (r: ParseResult<ItemEnum>)
    requires Productive(generics) && Productive(field)
    ensures Advances(p, r)
    ensures ParseItemHead(p, "enum").Err? ==> r == Err(ParseItemHead(p, "enum").log)
    ensures ParseItemHead(p, "enum").Ok? ==>
              var h := ParseItemHead(p, "enum");
              var b := ParseEnumBody(h.parser, generics, field);
              && (b.Err? ==> r == Err(b.log))
              && (b.Ok? ==>
                    r == Ok(ItemEnum(h.value.visibility, h.value.keywordToken, h.value.name, b.value.0, b.value.1),
                            b.parser))
  {
    match ParseItemHead(p, "enum")
    case Err(log) => Err(log)
    case Ok(head, p1) =>
      match ParseEnumBody(p1, generics, field)
      case Err(log) => Err(log)
      case Ok(body, p2) =>
        ContinuesTransitive(p, p1, p2);
        Ok(ItemEnum(head.visibility, head.keywordToken, head.name, body.0, body.1), p2)
  }

  /**
    Where the parts of a parsed enum sit: an optional `pub` first, then `enum`
    and the name, generics exactly when a `<` follows the name, and the
    variants' brace group as the last token read.
   */
  lemma EnumPositions(p: Parser, generics: Parser -> ParseResult<GenericParams>,
                      field: Parser -> ParseResult<TypeField>)
    requires Productive(generics) && Productive(field)
    requires ParseItemEnum(p, generics, field).Ok?
    ensures var r := ParseItemEnum(p, generics, field);
            var k := if r.value.visibility.Some? then 1 else 0;
            var last := |p.rest| - |r.parser.rest| - 1;
            && (r.value.visibility.Some? <==> |p.rest| > 0 && Matches(p.rest[0], AKeyword("pub")))
            && (r.value.visibility.Some? ==> r.value.visibility.value == Token(p.rest[0].span))
            && |p.rest| >= k + 3
            && Matches(p.rest[k], AKeyword("enum")) && r.value.enumToken == Token(p.rest[k].span)
            && p.rest[k + 1].IdentTree? && r.value.name == Ident(p.rest[k + 1].span)
            && (r.value.generics.Some? <==> Matches(p.rest[k + 2], APunct(LessThan)))
            && k + 2 <= last
            && p.rest[last].Group? && p.rest[last].delimiter == Brace
            && r.value.fields.span == p.rest[last].span
  {
    var h := ParseItemHead(p, "enum");
    var b := ParseEnumBody(h.parser, generics, field);
    assert b.Ok?;
    assert h.parser.rest[0] == p.rest[Offset(h.value) + 2];
    assert h.parser.rest[|h.parser.rest| - |b.parser.rest| - 1] == p.rest[|p.rest| - |b.parser.rest| - 1];
  }

  /**
    The variants' brace group: a missing one records "expected an opening
    brace"; otherwise the body is accepted exactly when the variant list reads
    the whole interior, and it holds that list with the group's span.
   */
  function EnumBraces(s: Parser, gs: Option<GenericParams>, field: Parser -> ParseResult<TypeField>)
    : (r: ParseResult<(Option<GenericParams>, Bracketed<Punctuated<TypeField, Token>>)>)
    requires Productive(field)
    ensures Advances(s, r)
    ensures !OpensWith(s, Brace) ==> r == Err(EmitError(s, OpeningError(Brace)))
    ensures OpensWith(s, Brace) && ParseFields(Interior(s), field).Err? ==>
              r == Err(ParseFields(Interior(s), field).log)
    ensures r.Ok? <==> OpensWith(s, Brace) && ParseFields(Interior(s), field).Ok?
    ensures r.Ok? ==>
              var f := ParseFields(Interior(s), field);
              && r.value.0 == gs
              && r.value.1 == Bracketed(f.value, s.rest[0].span)
              && r.parser == GroupExit(s, f.parser)
  {
    var fields := q => ParseFields(q, field);
    assert OpensWith(s, Brace) ==> fields(Interior(s)) == ParseFields(Interior(s), field);
    match Brackets.Parse(s, Brace, fields)
    case Err(log) => Err(log)
    case Ok(b, p2) => Ok((gs, b), p2)
  }

  /**
    What follows `[pub] enum Name`: optional generics, then the braced
    variants as `EnumBraces` reads them. A failing generics parse fails the
    enum; on success the variants' group is the last token read.
   */
  function ParseEnumBody(p: Parser, generics: Parser -> ParseResult<GenericParams>,
                         field: Parser -> ParseResult<TypeField>)
    : (r: ParseResult<(Option<GenericParams>, Bracketed<Punctuated<TypeField, Token>>)>)
    requires Productive(generics) && Productive(field)
    ensures Advances(p, r)
    ensures ParseGenericsOpt(p, generics).Err? ==> r == Err(ParseGenericsOpt(p, generics).log)
    ensures ParseGenericsOpt(p, generics).Ok? ==>
              var g := ParseGenericsOpt(p, generics);
              r == EnumBraces(g.parser, g.value, field)
    ensures r.Ok? ==>
              var last := |p.rest| - |r.parser.rest| - 1;
              && (r.value.0.Some? <==> Matches(p.rest[0], APunct(LessThan)))
              && p.rest[last].Group? && p.rest[last].delimiter == Brace
              && r.value.1.span == p.rest[last].span
  {
    match ParseGenericsOpt(p, generics)
    case Err(log) => Err(log)
    case Ok(gs, p1) =>
      match EnumBraces(p1, gs, field)
      case Err(log) => Err(log)
      case Ok(body, p2) =>
        ContinuesTransitive(p, p1, p2);
        assert p1.rest[0] == p.rest[|p.rest| - |p1.rest|];
        Ok(body, p2)
  }

  /** `if parser.peek::<LessThanToken>().is_some() { Some(parser.parse()?) } else { None }` */
  function ParseGenericsOpt(p: Parser, generics: Parser -> ParseResult<GenericParams>)
    : (r: ParseResult<Option<GenericParams>>)
    requires Productive(generics)
    ensures Steps(p, r)
    ensures Peek(p, APunct(LessThan)).None? ==> r == Ok(None, p)
    ensures Peek(p, APunct(LessThan)).Some? ==>
              match generics(p)
              case Err(log) => r == Err(log)
              case Ok(g, q) => r == Ok(Some(g), q)
  {
    if Peek(p, APunct(LessThan)).Some? then
      match generics(p)
      case Err(log) => Err(log)
      case Ok(g, q) => Ok(Some(g), q)
    else Ok(None, p)
  }

  /** Token trees that appear in source order, all from one text. */
  predicate InSourceOrder(ts: seq<TokenTree>)
  {
    forall i, j :: 0 <= i < j < |ts| ==> ts[i].span.src == ts[j].span.src && ts[i].span.end <= ts[j].span.start
  }

  /**
    For tokens in source order, the span of a parsed enum runs from the start
    of its first token to the end of its last one, the closing brace group.
   */
  lemma ParsedEnumSpan(p: Parser, generics: Parser -> ParseResult<GenericParams>,
                       field: Parser -> ParseResult<TypeField>)
    requires Productive(generics) && Productive(field)
    requires InSourceOrder(p.rest)
    requires ParseItemEnum(p, generics, field).Ok?
    ensures var r := ParseItemEnum(p, generics, field);
            var last := |p.rest| - |r.parser.rest| - 1;
            && SameSource(r.value)
            && EnumSpan(r.value).start == p.rest[0].span.start
            && EnumSpan(r.value).end == p.rest[last].span.end
  {
    EnumPositions(p, generics, field);
  }

  /**
    A well-formed `[pub] enum Name { ... }` without generics is accepted
    whenever its variants read the whole brace interior, and it is exactly the
    head, no generics, and that list with the braces' span.
   */
  lemma EnumAccepted(h: ItemHead, variants: seq<TokenTree>, braces: Span, after: seq<TokenTree>,
                     full: Span, log: Log, generics: Parser -> ParseResult<GenericParams>,
                     field: Parser -> ParseResult<TypeField>)
    requires Productive(generics) && Productive(field)
    requires WellFormed(h, "enum")
    requires ParseFields(Parser(variants, braces, log), field).Ok?
    ensures var f := ParseFields(Parser(variants, braces, log), field);
            ParseItemEnum(Parser(RenderHead(h) + [Group(Brace, variants, braces)] + after, full, log), generics, field)
            == Ok(ItemEnum(h.visibility, h.keywordToken, h.name, None, Bracketed(f.value, braces)),
                  Parser(after, full, f.parser.log))
  {
    var rest := [Group(Brace, variants, braces)] + after;
    assert RenderHead(h) + [Group(Brace, variants, braces)] + after == RenderHead(h) + rest;
    HeadRoundTrip(h, "enum", rest, full, log);
    var q := Parser(rest, full, log);
    assert ParseGenericsOpt(q, generics) == Ok(None, q);
    assert Interior(q) == Parser(variants, braces, log);
    var f := ParseFields(Parser(variants, braces, log), field);
    assert GroupExit(q, f.parser) == Parser(after, full, f.parser.log);
  }
}

/**
  The opening shared by `ItemTrait` and `ItemEnum`
  (`new-parser-again/src/item/item_trait.rs`, `item_enum.rs`):
  `parser.take()` of an optional `pub`, then the item's keyword, then its name.
 */
module ItemHeads {
  import opened Common
  import opened Spans
  import opened Parsing
  import opened Idents

  datatype ItemHead = ItemHead(visibility: Option<Token>, keywordToken: Token, name: Ident)

  /** How many tokens `pub` occupies: one when present, none otherwise. */
  function Offset(h: ItemHead): nat
  {
    if h.visibility.Some? then 1 else 0
  }

  /** Where the keyword must sit: after a `pub`, if one comes first. */
  function KeywordAt(p: Parser): nat
  {
    if |p.rest| > 0 && Matches(p.rest[0], AKeyword("pub")) then 1 else 0
  }

  /**
    `pub` is taken silently when present; the keyword and the name are
    required, and each failure records the diagnostic of the missing part at
    the position where it was expected. The head is accepted exactly when the
    keyword and an identifier follow the optional `pub`, and then exactly
    those tokens are consumed.
   */
  function ParseItemHead(p: Parser, keyword: string): (r: ParseResult<ItemHead>)
    ensures Advances(p, r)
    ensures var k := KeywordAt(p);
            r.Ok? <==> |p.rest| >= k + 2 && Matches(p.rest[k], AKeyword(keyword)) && p.rest[k + 1].IdentTree?
    ensures var k := KeywordAt(p);
            !(|p.rest| > k && Matches(p.rest[k], AKeyword(keyword))) ==>
              r == Err(EmitError(p.(rest := p.rest[k..]), Expected(AKeyword(keyword))))
    ensures var k := KeywordAt(p);
            |p.rest| > k && Matches(p.rest[k], AKeyword(keyword)) && !(|p.rest| > k + 1 && p.rest[k + 1].IdentTree?) ==>
              r == Err(EmitError(p.(rest := p.rest[k + 1..]), ExpectedIdent))
    ensures r.Ok? ==>
              var k := Offset(r.value);
              && k == KeywordAt(p)
              && (r.value.visibility.Some? ==> r.value.visibility.value == Token(p.rest[0].span))
              && r.value.keywordToken == Token(p.rest[k].span)
              && r.value.name == Ident(p.rest[k + 1].span)
              && r.parser == p.(rest := p.rest[k + 2..])
  {
    var vis := Take(p, AKeyword("pub"));
    var p1 := if vis.Took? then vis.parser else p;
    assert p1 == p.(rest := p.rest[KeywordAt(p)..]);
    var visibility: Option<Token> := if vis.Took? then Some(Token(vis.span)) else None;
    match ParseToken(p1, AKeyword(keyword))
    case Err(log) => Err(log)
    case Ok(keywordToken, p2) =>
      assert p2 == p.(rest := p.rest[KeywordAt(p) + 1..]);
      match ParseIdent(p2)
      case Err(log) => Err(log)
      case Ok(name, p3) =>
        assert p3.rest == p.rest[Offset(ItemHead(visibility, keywordToken, name)) + 2..];
        Ok(ItemHead(visibility, keywordToken, name), p3)
  }

  /** A head whose tokens read `pub`, the keyword and an identifier. */
  predicate WellFormed(h: ItemHead, keyword: string)
  {
    && keyword != "pub"
    && (h.visibility.Some? ==> AsStr(h.visibility.value.span) == "pub")
    && AsStr(h.keywordToken.span) == keyword
  }

  /** The token trees of `[pub] keyword Name`. */
  function RenderHead(h: ItemHead): seq<TokenTree>
  {
    (if h.visibility.Some? then [IdentTree(h.visibility.value.span)] else [])
    + [IdentTree(h.keywordToken.span), IdentTree(h.name.span)]
  }

  /** Every well-formed head is read back from its tokens, whatever follows it. */
  lemma HeadRoundTrip(h: ItemHead, keyword: string, after: seq<TokenTree>, full: Span, log: Log)
    requires WellFormed(h, keyword)
    ensures ParseItemHead(Parser(RenderHead(h) + after, full, log), keyword) == Ok(h, Parser(after, full, log))
  {
    var p := Parser(RenderHead(h) + after, full, log);
    var k := Offset(h);
    assert p.rest[k] == IdentTree(h.keywordToken.span);
    assert p.rest[k + 1] == IdentTree(h.name.span);
    assert KeywordAt(p) == k;
    assert p.rest[k + 2..] == after;
  }

  /** Conversely, a parsed head renders back to exactly the tokens it consumed. */
  lemma ParsedHeadRendersInput(p: Parser, keyword: string)
    requires keyword != "pub"
    requires ParseItemHead(p, keyword).Ok?
    ensures var r := ParseItemHead(p, keyword);
            WellFormed(r.value, keyword) && RenderHead(r.value) + r.parser.rest == p.rest
  {
    var r := ParseItemHead(p, keyword);
    var k := Offset(r.value);
    assert p.rest == p.rest[..k + 2] + p.rest[k + 2..];
    assert RenderHead(r.value) == p.rest[..k + 2];
  }
}

/**
  Trait items (`new-parser-again/src/item/item_trait.rs`):
  `[pub] trait Name [: A + B + ...] { signatures; } [{ fn items }]`.
 */
module ItemTraits {
  import opened Common
  import opened Spans
  import opened Parsing
  import opened Idents
  import opened Brackets
  import opened Nodes
  import opened ItemFns
  import opened ItemHeads

  /** A `+`-separated list of super-traits: the first one and each `+ Ty` after it. */
  datatype Traits = Traits(prefix: Ty, suffixes: seq<(Token, Ty)>)

  datatype ItemTrait = ItemTrait(
    visibility: Option<Token>,
    traitToken: Token,
    name: Ident,
    superTraits: Option<(Token, Traits)>,
    traitItems: Bracketed<seq<(FnSignature, Token)>>,
    traitDefsOpt: Option<Bracketed<seq<ItemFn>>>)

  // ---------------------------------------------------------------- Traits

  /**
    The loop of `Parse for Traits`: while a `+` comes next, take it and parse
    one more type. Without a `+` the loop stops where it is; after a `+` a
    type must follow, or the whole list fails with that type's log; otherwise
    the pair is appended and the loop goes on after the type.
   */
  function Suffixes(p: Parser, ty: Parser -> ParseResult<Ty>, acc: seq<(Token, Ty)>)
    : (r: ParseResult<seq<(Token, Ty)>>)
    requires Productive(ty)
    ensures Steps(p, r)
    ensures r.Ok? ==> acc <= r.value
    ensures r.Ok? ==> !(|r.parser.rest| > 0 && Matches(r.parser.rest[0], APunct(Add)))
    ensures !(|p.rest| > 0 && Matches(p.rest[0], APunct(Add))) ==> r == Ok(acc, p)
    ensures |p.rest| > 0 && Matches(p.rest[0], APunct(Add)) ==>
              var t := ty(p.(rest := p.rest[1..]));
              && (t.Err? ==> r == Err(t.log))
              && (t.Ok? ==> r == Suffixes(t.parser, ty, acc + [(Token(p.rest[0].span), t.value)]))
    decreases |p.rest|
  {
    match Take(p, APunct(Add))
    case NotTaken => Ok(acc, p)
    case Took(add, p1) =>
      match ty(p1)
      case Err(log) => Err(log)
      case Ok(t, p2) =>
        var r := Suffixes(p2, ty, acc + [(Token(add), t)]);
        assert r.Ok? ==> Continues(p, r.parser) by {
          if r.Ok? { ContinuesTransitive(p, p2, r.parser); }
        }
        r
  }

  /**
    `Parse for Traits`: one type, then as many `+ Ty` as follow. A failing
    first type fails the list; otherwise the list is that type and the pairs
    the loop reads after it, and a success never leaves a `+` next.
   */
  function ParseTraits(p: Parser, ty: Parser -> ParseResult<Ty>): (r: ParseResult<Traits>)
    requires Productive(ty)
    ensures Advances(p, r)
    ensures ty(p).Err? ==> r == Err(ty(p).log)
    ensures ty(p).Ok? ==>
              var s := Suffixes(ty(p).parser, ty, []);
              && (s.Err? ==> r == Err(s.log))
              && (s.Ok? ==> r == Ok(Traits(ty(p).value, s.value), s.parser))
    ensures r.Ok? ==> !(|r.parser.rest| > 0 && Matches(r.parser.rest[0], APunct(Add)))
  {
    match ty(p)
    case Err(log) => Err(log)
    case Ok(prefix, p1) =>
      match Suffixes(p1, ty, [])
      case Err(log) => Err(log)
      case Ok(suffixes, p2) =>
        ContinuesTransitive(p, p1, p2);
        Ok(Traits(prefix, suffixes), p2)
  }

  function RenderSuffixes(suffixes: seq<(Token, Ty)>): seq<TokenTree>
  {
    if |suffixes| == 0 then []
    else [PunctTree(Add, suffixes[0].0.span), IdentTree(suffixes[0].1.span)] + RenderSuffixes(suffixes[1..])
  }

  /** The token trees of `A + B + ...` for one-token types. */
  function RenderTraits(x: Traits): seq<TokenTree>
  {
    [IdentTree(x.prefix.span)] + RenderSuffixes(x.suffixes)
  }

  /** The first `+ Ty` of a rendered list is read back as the pair it was rendered from. */
  lemma RenderedStep(suffixes: seq<(Token, Ty)>, acc: seq<(Token, Ty)>, after: seq<TokenTree>,
                     full: Span, log: Log)
    requires |suffixes| > 0
    ensures Suffixes(Parser(RenderSuffixes(suffixes) + after, full, log), IdentTy, acc)
            == Suffixes(Parser(RenderSuffixes(suffixes[1..]) + after, full, log), IdentTy, acc + [suffixes[0]])
  {
    var tail := RenderSuffixes(suffixes[1..]) + after;
    var head := [PunctTree(Add, suffixes[0].0.span), IdentTree(suffixes[0].1.span)];
    assert RenderSuffixes(suffixes) + after == head + tail;
    var p := Parser(head + tail, full, log);
    var p1 := Parser([IdentTree(suffixes[0].1.span)] + tail, full, log);
    var p2 := Parser(tail, full, log);
    assert p.rest[1..] == p1.rest;
    assert p1.rest[1..] == p2.rest;
    assert p.(rest := p.rest[1..]) == p1;
    assert IdentTy(p1) == Ok(suffixes[0].1, p2);
    assert (Token(p.rest[0].span), suffixes[0].1) == suffixes[0];
  }

  lemma {:induction false} SuffixesRoundTrip(suffixes: seq<(Token, Ty)>, acc: seq<(Token, Ty)>,
                                             after: seq<TokenTree>, full: Span, log: Log)
    requires !(|after| > 0 && Matches(after[0], APunct(Add)))
    ensures Suffixes(Parser(RenderSuffixes(suffixes) + after, full, log), IdentTy, acc)
            == Ok(acc + suffixes, Parser(after, full, log))
    decreases |suffixes|
  {
    if |suffixes| == 0 {
      assert RenderSuffixes(suffixes) + after == after;
      assert acc + suffixes == acc;
    } else {
      var next := acc + [suffixes[0]];
      assert next + suffixes[1..] == acc + suffixes by {
        assert [suffixes[0]] + suffixes[1..] == suffixes;
      }
      RenderedStep(suffixes, acc, after, full, log);
      SuffixesRoundTrip(suffixes[1..], next, after, full, log);
    }
  }

  /**
    Reading back the rendering of a super-trait list gives that list and stops
    right after it, whatever follows that is not a `+`.
   */
  lemma TraitsRoundTrip(x: Traits, after: seq<TokenTree>, full: Span, log: Log)
    requires !(|after| > 0 && Matches(after[0], APunct(Add)))
    ensures ParseTraits(Parser(RenderTraits(x) + after, full, log), IdentTy)
            == Ok(x, Parser(after, full, log))
  {
    var p := Parser(RenderTraits(x) + after, full, log);
    assert p.rest[0] == IdentTree(x.prefix.span);
    assert p.rest[1..] == RenderSuffixes(x.suffixes) + after;
    SuffixesRoundTrip(x.suffixes, [], after, full, log);
    assert [] + x.suffixes == x.suffixes;
  }

  // ------------------------------------------------------------- ItemTrait

  /**
    `super_traits`: a colon introduces the list, which must then parse; without
    a colon there is none and nothing is consumed.
   */
  function ParseSuperTraits(p: Parser, ty: Parser -> ParseResult<Ty>)
    : (r: ParseResult<Option<(Token, Traits)>>)
    requires Productive(ty)
    ensures Steps(p, r)
    ensures !(|p.rest| > 0 && Matches(p.rest[0], APunct(Colon))) ==> r == Ok(None, p)
    ensures |p.rest| > 0 && Matches(p.rest[0], APunct(Colon)) ==>
              var t := ParseTraits(p.(rest := p.rest[1..]), ty);
              && (t.Err? ==> r == Err(t.log))
              && (t.Ok? ==> r == Ok(Some((Token(p.rest[0].span), t.value)), t.parser))
  {
    match Take(p, APunct(Colon))
    case NotTaken => Ok(None, p)
    case Took(colon, p1) =>
      match ParseTraits(p1, ty)
      case Err(log) => Err(log)
      case Ok(traits, p2) => Ok(Some((Token(colon), traits)), p2)
  }

  /** What follows `[pub] trait Name`: the super-traits and the one or two brace groups. */
  datatype TraitBody = TraitBody(
    superTraits: Option<(Token, Traits)>,
    traitItems: Bracketed<seq<(FnSignature, Token)>>,
    traitDefsOpt: Option<Bracketed<seq<ItemFn>>>)

  /**
    The signatures' brace group is required first: a missing one records
    "expected an opening brace", and its interior must be read to the end by
    `items`. A second brace group, if one follows, holds the default methods,
    read to the end by `defs`; without one there are none and nothing more is
    consumed.
   */
  function TraitBraces(s: Parser, superTraits: Option<(Token, Traits)>,
                       items: Parser -> ParseResult<seq<(FnSignature, Token)>>,
                       defs: Parser -> ParseResult<seq<ItemFn>>)
    : (r: ParseResult<TraitBody>)
    requires ToEnd(items) && ToEnd(defs)
    ensures Advances(s, r)
    ensures !OpensWith(s, Brace) ==> r == Err(EmitError(s, OpeningError(Brace)))
    ensures OpensWith(s, Brace) && items(Interior(s)).Err? ==> r == Err(items(Interior(s)).log)
    ensures OpensWith(s, Brace) && items(Interior(s)).Ok? ==>
              var q := GroupExit(s, items(Interior(s)).parser);
              && (OpensWith(q, Brace) && defs(Interior(q)).Err? ==> r == Err(defs(Interior(q)).log))
              && (r.Ok? <==> !OpensWith(q, Brace) || defs(Interior(q)).Ok?)
              && (r.Ok? ==>
                    && r.value.superTraits == superTraits
                    && r.value.traitItems == Bracketed(items(Interior(s)).value, s.rest[0].span)
                    && (r.value.traitDefsOpt.Some? <==> OpensWith(q, Brace))
                    && (r.value.traitDefsOpt.Some? ==>
                          && r.value.traitDefsOpt.value == Bracketed(defs(Interior(q)).value, q.rest[0].span)
                          && r.parser == GroupExit(q, defs(Interior(q)).parser))
                    && (r.value.traitDefsOpt.None? ==> r.parser == q))
    ensures r.Ok? ==> OpensWith(s, Brace) && items(Interior(s)).Ok?
  {
    match Brackets.Parse(s, Brace, items)
    case Err(log) => Err(log)
    case Ok(traitItems, p2) =>
      match Brackets.TryParse(p2, Brace, defs)
      case Err(log) => Err(log)
      case Ok(traitDefsOpt, p3) =>
        ContinuesTransitive(s, p2, p3);
        Ok(TraitBody(superTraits, traitItems, traitDefsOpt), p3)
  }

  /**
    What follows `[pub] trait Name`: the super-traits, then the brace groups
    as `TraitBraces` reads them.
   */
  function ParseTraitBody(p: Parser, ty: Parser -> ParseResult<Ty>,
                          items: Parser -> ParseResult<seq<(FnSignature, Token)>>,
                          defs: Parser -> ParseResult<seq<ItemFn>>)
    : (r: ParseResult<TraitBody>)
    requires Productive(ty) && ToEnd(items) && ToEnd(defs)
    ensures Advances(p, r)
    ensures ParseSuperTraits(p, ty).Err? ==> r == Err(ParseSuperTraits(p, ty).log)
    ensures ParseSuperTraits(p, ty).Ok? ==>
              var s := ParseSuperTraits(p, ty);
              && r == TraitBraces(s.parser, s.value, items, defs)
              && (r.Ok? ==> |p.rest| > 0 && (r.value.superTraits.Some? <==> Matches(p.rest[0], APunct(Colon))))
  {
    match ParseSuperTraits(p, ty)
    case Err(log) => Err(log)
    case Ok(superTraits, p1) =>
      match TraitBraces(p1, superTraits, items, defs)
      case Err(log) => Err(log)
      case Ok(body, p2) =>
        ContinuesTransitive(p, p1, p2);
        Ok(body, p2)
  }

  /**
    `Parse for ItemTrait`, with the type parser and the `ParseToEnd` of the two
    brace interiors as parameters. After `[pub] trait Name`, a colon introduces
    the super-traits; the signatures' braces are required; a second brace
    group, if it follows, holds default methods. The trait is accepted
    exactly when its head and then its body are, and is assembled from them.
   */
  function ParseItemTrait(p: Parser, ty: Parser -> ParseResult<Ty>,
                          items: Parser -> ParseResult<seq<(FnSignature, Token)>>,
                          defs: Parser -> ParseResult<seq<ItemFn>>)
    : (r: ParseResult<ItemTrait>)
    requires Productive(ty) && ToEnd(items) && ToEnd(defs)
    ensures Advances(p, r)
    ensures ParseItemHead(p, "trait").Err? ==> r == Err(ParseItemHead(p, "trait").log)
    ensures ParseItemHead(p, "trait").Ok? ==>
              var h := ParseItemHead(p, "trait");
              var b := ParseTraitBody(h.parser, ty, items, defs);
              && (b.Err? ==> r == Err(b.log))
              && (b.Ok? ==>
                    r == Ok(ItemTrait(h.value.visibility, h.value.keywordToken, h.value.name,
                                      b.value.superTraits, b.value.traitItems, b.value.traitDefsOpt),
                            b.parser))
  {
    match ParseItemHead(p, "trait")
    case Err(log) => Err(log)
    case Ok(head, p1) =>
      match ParseTraitBody(p1, ty, items, defs)
      case Err(log) => Err(log)
      case Ok(body, p2) =>
        ContinuesTransitive(p, p1, p2);
        Ok(ItemTrait(head.visibility, head.keywordToken, head.name,
                     body.superTraits, body.traitItems, body.traitDefsOpt), p2)
  }

  /**
    Where the head of a parsed trait sits: an optional `pub` first, then
    `trait` and the name.
   */
  lemma TraitHeadPositions(p: Parser, ty: Parser -> ParseResult<Ty>,
                           items: Parser -> ParseResult<seq<(FnSignature, Token)>>,
                           defs: Parser -> ParseResult<seq<ItemFn>>)
    requires Productive(ty) && ToEnd(items) && ToEnd(defs)
    requires ParseItemTrait(p, ty, items, defs).Ok?
    ensures var r := ParseItemTrait(p, ty, items, defs);
            var k := if r.value.visibility.Some? then 1 else 0;
            && (r.value.visibility.Some? <==> |p.rest| > 0 && Matches(p.rest[0], AKeyword("pub")))
            && (r.value.visibility.Some? ==> r.value.visibility.value == Token(p.rest[0].span))
            && |p.rest| >= k + 3
            && Matches(p.rest[k], AKeyword("trait")) && r.value.traitToken == Token(p.rest[k].span)
            && p.rest[k + 1].IdentTree? && r.value.name == Ident(p.rest[k + 1].span)
  {
    var r := ParseItemTrait(p, ty, items, defs);
    var h := ParseItemHead(p, "trait");
    assert h.Ok?;
    BodyPositions(h.parser, ty, items, defs);
    assert r.value.visibility == h.value.visibility;
    assert r.value.traitToken == h.value.keywordToken;
    assert r.value.name == h.value.name;
  }

  /**
    What follows the name of a parsed trait: super-traits exactly when a
    colon comes next, and no default methods only when no brace group is left.
   */
  lemma TraitTailPositions(p: Parser, ty: Parser -> ParseResult<Ty>,
                           items: Parser -> ParseResult<seq<(FnSignature, Token)>>,
                           defs: Parser -> ParseResult<seq<ItemFn>>)
    requires Productive(ty) && ToEnd(items) && ToEnd(defs)
    requires ParseItemTrait(p, ty, items, defs).Ok?
    ensures var r := ParseItemTrait(p, ty, items, defs);
            var k := if r.value.visibility.Some? then 1 else 0;
            && |p.rest| >= k + 3
            && (r.value.superTraits.Some? <==> Matches(p.rest[k + 2], APunct(Colon)))
            && (r.value.traitDefsOpt.None? ==> !OpensWith(r.parser, Brace))
  {
    var r := ParseItemTrait(p, ty, items, defs);
    var h := ParseItemHead(p, "trait");
    assert h.Ok?;
    var b := ParseTraitBody(h.parser, ty, items, defs);
    assert b.Ok?;
    BodyPositions(h.parser, ty, items, defs);
    assert r.value.visibility == h.value.visibility;
    assert r.value.superTraits == b.value.superTraits;
    assert r.value.traitDefsOpt == b.value.traitDefsOpt;
    assert r.parser == b.parser;
    assert h.parser.rest[0] == p.rest[Offset(h.value) + 2];
  }

  /**
    After the name, super-traits are present exactly when a colon comes
    first, and default methods are absent only when no brace group is left.
   */
  lemma BodyPositions(p: Parser, ty: Parser -> ParseResult<Ty>,
                      items: Parser -> ParseResult<seq<(FnSignature, Token)>>,
                      defs: Parser -> ParseResult<seq<ItemFn>>)
    requires Productive(ty) && ToEnd(items) && ToEnd(defs)
    requires ParseTraitBody(p, ty, items, defs).Ok?
    ensures var r := ParseTraitBody(p, ty, items, defs);
            && |p.rest| > 0
            && (r.value.superTraits.Some? <==> Matches(p.rest[0], APunct(Colon)))
            && (r.value.traitDefsOpt.None? ==> !OpensWith(r.parser, Brace))
  {
    var s := ParseSuperTraits(p, ty);
    assert s.Ok? && OpensWith(s.parser, Brace);
  }

  /**
    A trait item must open with `trait` once an optional `pub` is passed:
    anything else there records "expected `trait`" and fails.
   */
  lemma MissingTraitKeyword(p: Parser, ty: Parser -> ParseResult<Ty>,
                            items: Parser -> ParseResult<seq<(FnSignature, Token)>>,
                            defs: Parser -> ParseResult<seq<ItemFn>>)
    requires Productive(ty) && ToEnd(items) && ToEnd(defs)
    requires |p.rest| > 0 && !Matches(p.rest[0], AKeyword("pub")) && !Matches(p.rest[0], AKeyword("trait"))
    ensures ParseItemTrait(p, ty, items, defs) == Err(EmitError(p, Expected(AKeyword("trait"))))
  {
  }

  /**
    A well-formed `[pub] trait Name { signatures }` followed by anything but a
    second brace group is accepted whenever `items` reads the
    braces' interior: no super-traits, the signatures with the braces' span,
    no default methods, and everything up to the braces consumed.
   */
  lemma TraitAccepted(h: ItemHead, signatures: seq<TokenTree>, braces: Span, after: seq<TokenTree>,
                      full: Span, log: Log, ty: Parser -> ParseResult<Ty>,
                      items: Parser -> ParseResult<seq<(FnSignature, Token)>>,
                      defs: Parser -> ParseResult<seq<ItemFn>>)
    requires Productive(ty) && ToEnd(items) && ToEnd(defs)
    requires WellFormed(h, "trait")
    requires !(|after| > 0 && after[0].Group? && after[0].delimiter == Brace)
    requires items(Parser(signatures, braces, log)).Ok?
    ensures var i := items(Parser(signatures, braces, log));
            ParseItemTrait(Parser(RenderHead(h) + [Group(Brace, signatures, braces)] + after, full, log), ty, items, defs)
            == Ok(ItemTrait(h.visibility, h.keywordToken, h.name, None, Bracketed(i.value, braces), None),
                  Parser(after, full, i.parser.log))
  {
    var rest := [Group(Brace, signatures, braces)] + after;
    assert RenderHead(h) + [Group(Brace, signatures, braces)] + after == RenderHead(h) + rest;
    HeadRoundTrip(h, "trait", rest, full, log);
    var q := Parser(rest, full, log);
    assert ParseSuperTraits(q, ty) == Ok(None, q);
    assert Interior(q) == Parser(signatures, braces, log);
    var i := items(Parser(signatures, braces, log));
    assert GroupExit(q, i.parser) == Parser(after, full, i.parser.log);
    assert !OpensWith(Parser(after, full, i.parser.log), Brace);
  }

  /**
    A trait whose signature braces are missing is rejected: after a
    well-formed head and no colon, anything but a brace group records
    "expected an opening brace" at that token.
   */
  lemma MissingSignatureBraces(h: ItemHead, after: seq<TokenTree>, full: Span, log: Log,
                               ty: Parser -> ParseResult<Ty>,
                               items: Parser -> ParseResult<seq<(FnSignature, Token)>>,
                               defs: Parser -> ParseResult<seq<ItemFn>>)
    requires Productive(ty) && ToEnd(items) && ToEnd(defs)
    requires WellFormed(h, "trait")
    requires !(|after| > 0 && Matches(after[0], APunct(Colon)))
    requires !(|after| > 0 && after[0].Group? && after[0].delimiter == Brace)
    ensures ParseItemTrait(Parser(RenderHead(h) + after, full, log), ty, items, defs)
            == Err(EmitError(Parser(after, full, log), OpeningError(Brace)))
  {
    HeadRoundTrip(h, "trait", after, full, log);
  }
}

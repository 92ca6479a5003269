/**
  Function items (`new-parser-again/src/item/item_fn.rs`): a signature
  followed by a braced body.
 */
module ItemFns {
  import opened Common
  import opened Spans
  import opened Parsing
  import opened Brackets
  import opened Nodes

  datatype ItemFn = ItemFn(fnSignature: FnSignature, body: Bracketed<CodeBlockContents>)

  /**
    `Parse for ItemFn`. The signature and block parsers are defined outside the modelled files and come
    in as parameters. A failing signature fails the item with its own log;
    otherwise the body must be the brace group that follows the signature.
   */
  function ParseItemFn(p: Parser, sig: Parser -> ParseResult<FnSignature>,
                       block: Parser -> ParseResult<CodeBlockContents>)
    : (r: ParseResult<ItemFn>)
    requires Productive(sig) && ToEnd(block)
    ensures Advances(p, r)
    ensures sig(p).Err? ==> r == Err(sig(p).log)
    ensures sig(p).Ok? && !OpensWith(sig(p).parser, Brace) ==>
              r == Err(EmitError(sig(p).parser, OpeningError(Brace)))
    ensures sig(p).Ok? && OpensWith(sig(p).parser, Brace) && block(Interior(sig(p).parser)).Err? ==>
              r == Err(block(Interior(sig(p).parser)).log)
    ensures r.Ok? <==>
              && sig(p).Ok?
              && OpensWith(sig(p).parser, Brace)
              && block(Interior(sig(p).parser)).Ok?
    ensures r.Ok? ==>
              var s := sig(p).parser;
              && r.value.fnSignature == sig(p).value
              && r.value.body == Bracketed(block(Interior(s)).value, s.rest[0].span)
              && r.parser == GroupExit(s, block(Interior(s)).parser)
  {
    match sig(p)
    case Err(log) => Err(log)
    case Ok(fnSignature, p1) =>
      match Brackets.Parse(p1, Brace, block)
      case Err(log) => Err(log)
      case Ok(body, p2) =>
        ContinuesTransitive(p, p1, p2);
        Ok(ItemFn(fnSignature, body), p2)
  }

  /** `Parse for ItemFn` as a parser value, for the lists that hold function items. */
  lemma ParseItemFnIsProductive(sig: Parser -> ParseResult<FnSignature>,
                                block: Parser -> ParseResult<CodeBlockContents>)
    requires Productive(sig) && ToEnd(block)
    ensures Productive(p => ParseItemFn(p, sig, block))
  {
  }
}

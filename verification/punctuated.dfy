/**
  Separator lists (`new-parser-again/src/punctuated.rs`): values `T` joined by
  separators `P`, read greedily to the end of an already delimited scope.
  A list is one of four textual shapes: empty, one bare value, values joined
  by separators, or the same with a trailing separator (which then sits in
  the pairs with no final value).
 */
module Punctuation {
  import opened Common
  import opened Spans
  import opened Parsing
  import opened Idents

  datatype Punctuated<T, P> = Punctuated(pairs: seq<(T, P)>, finalValue: Option<T>)

  /**
    `ParseToEnd for Punctuated`. The loop: an empty scope ends the list with no
    final value; otherwise one value is parsed; if the scope is now empty that
    value is the final value; otherwise one separator is parsed and the pair is
    appended. `acc` holds the pairs read so far.
   */
  function ParseLoop<T, P>(p: Parser, value: Parser -> ParseResult<T>,
                           separator: Parser -> ParseResult<P>, acc: seq<(T, P)>)
    : (r: ParseResult<Punctuated<T, P>>)
    requires Productive(value) && Productive(separator)
    ensures Finishes(p, r)
    ensures r.Ok? ==> acc <= r.value.pairs
    ensures r.Ok? && !IsEmpty(p) ==> |acc| < |r.value.pairs| || r.value.finalValue.Some?
    decreases |p.rest|
  {
    if IsEmpty(p) then Ok(Punctuated(acc, None), p)
    else
      match value(p)
      case Err(log) => Err(log)
      case Ok(v, p1) =>
        if IsEmpty(p1) then Ok(Punctuated(acc, Some(v)), p1)
        else
          match separator(p1)
          case Err(log) => Err(log)
          case Ok(s, p2) =>
            var r := ParseLoop(p2, value, separator, acc + [(v, s)]);
            assert r.Ok? ==> acc <= acc + [(v, s)] <= r.value.pairs;
            r
  }

  /**
    The whole scope becomes one list: success leaves nothing unread, an empty
    scope is the empty list with the log untouched, and a non-empty scope
    never yields the empty list. A failure carries a recorded diagnostic and
    no partial list.
   */
  function ParseToEnd<T, P>(p: Parser, value: Parser -> ParseResult<T>,
                            separator: Parser -> ParseResult<P>)
    : (r: ParseResult<Punctuated<T, P>>)
    requires Productive(value) && Productive(separator)
    ensures Finishes(p, r)
    ensures IsEmpty(p) ==> r == Ok(Punctuated([], None), p)
    ensures r.Ok? && !IsEmpty(p) ==> |r.value.pairs| > 0 || r.value.finalValue.Some?
  {
    ParseLoop(p, value, separator, [])
  }

  /** A value or separator that fails makes the whole list fail with its log. */
  lemma FailureIsNotPartial<T, P>(p: Parser, value: Parser -> ParseResult<T>,
                                  separator: Parser -> ParseResult<P>)
    requires Productive(value) && Productive(separator)
    requires !IsEmpty(p)
    ensures value(p).Err? ==> ParseToEnd(p, value, separator) == Err(value(p).log)
    ensures value(p).Ok? && !IsEmpty(value(p).parser) && separator(value(p).parser).Err? ==>
              ParseToEnd(p, value, separator) == Err(separator(value(p).parser).log)
  {
  }

  // ------------------------------------------- lists of idents, as tokens

  /** The token trees of `ident, ident, ...`, the text a list of idents comes from. */
  function RenderPairs(pairs: seq<(Ident, Token)>): seq<TokenTree>
  {
    if |pairs| == 0 then []
    else [IdentTree(pairs[0].0.span), PunctTree(Comma, pairs[0].1.span)] + RenderPairs(pairs[1..])
  }

  function Render(x: Punctuated<Ident, Token>): seq<TokenTree>
  {
    RenderPairs(x.pairs) + (match x.finalValue case Some(v) => [IdentTree(v.span)] case None => [])
  }

  lemma RenderPairsAppend(a: seq<(Ident, Token)>, b: seq<(Ident, Token)>)
    ensures RenderPairs(a + b) == RenderPairs(a) + RenderPairs(b)
  {
    if |a| > 0 {
      assert (a + b)[0] == a[0];
      assert (a + b)[1..] == a[1..] + b;
      RenderPairsAppend(a[1..], b);
    } else {
      assert a + b == b;
    }
  }

  /** One turn of the loop that reads a value and a separator and goes on. */
  lemma LoopStep<T, P>(p: Parser, value: Parser -> ParseResult<T>,
                       separator: Parser -> ParseResult<P>, acc: seq<(T, P)>)
    requires Productive(value) && Productive(separator)
    requires !IsEmpty(p) && value(p).Ok?
    requires !IsEmpty(value(p).parser) && separator(value(p).parser).Ok?
    ensures var sep := separator(value(p).parser);
            ParseLoop(p, value, separator, acc)
            == ParseLoop(sep.parser, value, separator, acc + [(value(p).value, sep.value)])
  {
  }

  /** The end of a rendered list: nothing, or one last ident that becomes the final value. */
  lemma RenderedLoopEnd(acc: seq<(Ident, Token)>, last: Option<Ident>, full: Span, log: Log)
    ensures ParseLoop(Parser(Render(Punctuated([], last)), full, log), ParseIdent, ParseComma, acc)
            == Ok(Punctuated(acc, last), Parser([], full, log))
  {
    var ts := Render(Punctuated([], last));
    var p := Parser(ts, full, log);
    match last
    case None =>
      assert ts == [];
    case Some(v) =>
      assert ts == [IdentTree(v.span)];
      assert ParseIdent(p) == Ok(v, Parser([], full, log));
  }

  /** The first `ident,` of a rendered list is read back as the pair it was rendered from. */
  lemma RenderedLoopStep(acc: seq<(Ident, Token)>, pairs: seq<(Ident, Token)>, last: Option<Ident>,
                         full: Span, log: Log)
    requires |pairs| > 0
    ensures ParseLoop(Parser(Render(Punctuated(pairs, last)), full, log), ParseIdent, ParseComma, acc)
            == ParseLoop(Parser(Render(Punctuated(pairs[1..], last)), full, log), ParseIdent, ParseComma,
                         acc + [pairs[0]])
  {
    var ts := Render(Punctuated(pairs, last));
    var p := Parser(ts, full, log);
    var tail := Render(Punctuated(pairs[1..], last));
    assert ts == [IdentTree(pairs[0].0.span), PunctTree(Comma, pairs[0].1.span)] + tail;
    var p1 := Parser([PunctTree(Comma, pairs[0].1.span)] + tail, full, log);
    assert ParseIdent(p) == Ok(pairs[0].0, p1);
    assert ParseComma(p1) == Ok(pairs[0].1, Parser(tail, full, log));
    LoopStep(p, ParseIdent, ParseComma, acc);
  }

  lemma {:induction false} RenderLoopRoundTrip(acc: seq<(Ident, Token)>, pairs: seq<(Ident, Token)>,
                                               last: Option<Ident>, full: Span, log: Log)
    ensures ParseLoop(Parser(Render(Punctuated(pairs, last)), full, log), ParseIdent, ParseComma, acc)
            == Ok(Punctuated(acc + pairs, last), Parser([], full, log))
    decreases |pairs|
  {
    if |pairs| == 0 {
      assert acc + pairs == acc;
      RenderedLoopEnd(acc, last, full, log);
    } else {
      RenderedLoopStep(acc, pairs, last, full, log);
      RenderLoopRoundTrip(acc + [pairs[0]], pairs[1..], last, full, log);
      assert acc + [pairs[0]] + pairs[1..] == acc + pairs by {
        assert [pairs[0]] + pairs[1..] == pairs;
      }
    }
  }

  /** Parsing the tokens of a list of idents gives that list back, consuming all of them. */
  lemma ParseRenderRoundTrip(x: Punctuated<Ident, Token>, full: Span, log: Log)
    ensures ParseToEnd(Parser(Render(x), full, log), ParseIdent, ParseComma)
            == Ok(x, Parser([], full, log))
  {
    RenderLoopRoundTrip([], x.pairs, x.finalValue, full, log);
    assert [] + x.pairs == x.pairs;
  }

  /** What a successful turn of the loop must have read. */
  lemma LoopSuccessInversion<T, P>(p: Parser, value: Parser -> ParseResult<T>,
                                   separator: Parser -> ParseResult<P>, acc: seq<(T, P)>)
    requires Productive(value) && Productive(separator)
    requires !IsEmpty(p) && ParseLoop(p, value, separator, acc).Ok?
    ensures value(p).Ok?
    ensures IsEmpty(value(p).parser) ==>
              ParseLoop(p, value, separator, acc).value == Punctuated(acc, Some(value(p).value))
    ensures !IsEmpty(value(p).parser) ==> separator(value(p).parser).Ok?
  {
  }

  lemma {:induction false} LoopRendersInput(p: Parser, acc: seq<(Ident, Token)>)
    requires ParseLoop(p, ParseIdent, ParseComma, acc).Ok?
    ensures Render(ParseLoop(p, ParseIdent, ParseComma, acc).value) == RenderPairs(acc) + p.rest
    decreases |p.rest|
  {
    if IsEmpty(p) {
      assert ParseLoop(p, ParseIdent, ParseComma, acc).value == Punctuated(acc, None);
    } else {
      LoopSuccessInversion(p, ParseIdent, ParseComma, acc);
      var v := ParseIdent(p).value;
      var p1 := ParseIdent(p).parser;
      assert p.rest == [IdentTree(v.span)] + p1.rest;
      if IsEmpty(p1) {
        assert Render(Punctuated(acc, Some(v))) == RenderPairs(acc) + [IdentTree(v.span)];
      } else {
        var s := ParseComma(p1).value;
        var p2 := ParseComma(p1).parser;
        assert p1.rest == [PunctTree(Comma, s.span)] + p2.rest;
        LoopStep(p, ParseIdent, ParseComma, acc);
        LoopRendersInput(p2, acc + [(v, s)]);
        PairRendering(acc, v, s);
      }
    }
  }

  lemma PairRendering(acc: seq<(Ident, Token)>, v: Ident, s: Token)
    ensures RenderPairs(acc + [(v, s)]) == RenderPairs(acc) + [IdentTree(v.span), PunctTree(Comma, s.span)]
  {
    RenderPairsAppend(acc, [(v, s)]);
    assert RenderPairs([(v, s)]) == [IdentTree(v.span), PunctTree(Comma, s.span)] + RenderPairs([]);
  }

  /** Whatever list is read from a scope of idents and commas spells that scope exactly. */
  lemma ParsedListRendersInput(p: Parser)
    requires ParseToEnd(p, ParseIdent, ParseComma).Ok?
    ensures Render(ParseToEnd(p, ParseIdent, ParseComma).value) == p.rest
  {
    LoopRendersInput(p, []);
  }

  /** The four shapes, on the text "a,b,": ``, `a`, `a,b` and `a,b,`. */
  lemma FourShapes(full: Span, log: Log)
    ensures var a := Ident(RawSpan("a,b,", 0, 1, None));
            var c1 := Token(RawSpan("a,b,", 1, 2, None));
            var b := Ident(RawSpan("a,b,", 2, 3, None));
            var c2 := Token(RawSpan("a,b,", 3, 4, None));
            var done := Parser([], full, log);
            && ParseToEnd(Parser([], full, log), ParseIdent, ParseComma)
               == Ok(Punctuated([], None), done)
            && ParseToEnd(Parser([IdentTree(a.span)], full, log), ParseIdent, ParseComma)
               == Ok(Punctuated([], Some(a)), done)
            && ParseToEnd(Parser([IdentTree(a.span), PunctTree(Comma, c1.span), IdentTree(b.span)],
                                 full, log), ParseIdent, ParseComma)
               == Ok(Punctuated([(a, c1)], Some(b)), done)
            && ParseToEnd(Parser([IdentTree(a.span), PunctTree(Comma, c1.span), IdentTree(b.span),
                                  PunctTree(Comma, c2.span)], full, log), ParseIdent, ParseComma)
               == Ok(Punctuated([(a, c1), (b, c2)], None), done)
  {
    var a := Ident(RawSpan("a,b,", 0, 1, None));
    var c1 := Token(RawSpan("a,b,", 1, 2, None));
    var b := Ident(RawSpan("a,b,", 2, 3, None));
    var c2 := Token(RawSpan("a,b,", 3, 4, None));
    ParseRenderRoundTrip(Punctuated([], Some(a)), full, log);
    PairRendering([], a, c1);
    assert [] + [(a, c1)] == [(a, c1)];
    assert Render(Punctuated([(a, c1)], Some(b)))
        == [IdentTree(a.span), PunctTree(Comma, c1.span), IdentTree(b.span)];
    ParseRenderRoundTrip(Punctuated([(a, c1)], Some(b)), full, log);
    PairRendering([(a, c1)], b, c2);
    assert [(a, c1)] + [(b, c2)] == [(a, c1), (b, c2)];
    assert Render(Punctuated([(a, c1), (b, c2)], None))
        == [IdentTree(a.span), PunctTree(Comma, c1.span), IdentTree(b.span), PunctTree(Comma, c2.span)];
    ParseRenderRoundTrip(Punctuated([(a, c1), (b, c2)], None), full, log);
  }

  // ----------------------------------------------------------- iteration

  /** The values of a list in source order: the paired values, then the final value. */
  function Values<T, P>(x: Punctuated<T, P>): (vs: seq<T>)
    ensures |vs| == |x.pairs| + (if x.finalValue.Some? then 1 else 0)
  {
    seq(|x.pairs|, i requires 0 <= i < |x.pairs| => x.pairs[i].0)
      + (match x.finalValue case Some(v) => [v] case None => [])
  }

  /** `PunctuatedRefIter`: the list is passed alongside, the state is the index. */
  datatype RefIter = RefIter(index: nat)

  datatype IterStep<T> = IterStep(item: Option<T>, iter: RefIter)

  /**
    `PunctuatedRefIter::next`: yields the value at the current index and steps
    on; past the pairs it yields the final value once; after that, and when
    there is no final value, it yields nothing and stays where it is.
   */
  function Next<T, P>(x: Punctuated<T, P>, it: RefIter): (r: IterStep<T>)
    ensures r.item.Some? <==> it.index < |Values(x)|
    ensures r.item.Some? ==> r.item.value == Values(x)[it.index] && r.iter.index == it.index + 1
    ensures r.item.None? ==> r.iter == it
  {
    if it.index > |x.pairs| then IterStep(None, it)
    else if it.index < |x.pairs| then IterStep(Some(x.pairs[it.index].0), RefIter(it.index + 1))
    else
      match x.finalValue
      case Some(v) => IterStep(Some(v), RefIter(it.index + 1))
      case None => IterStep(None, it)
  }

  /** Once the iterator has yielded nothing, it keeps yielding nothing. */
  lemma NextIsFused<T, P>(x: Punctuated<T, P>, it: RefIter)
    requires Next(x, it).item.None?
    ensures Next(x, Next(x, it).iter).item.None?
  {
  }

  /** Draining a fresh iterator: exactly the values, `|pairs|` plus one for a final value. */
  method CollectValues<T, P>(x: Punctuated<T, P>) returns (vs: seq<T>)
    ensures vs == Values(x)
    ensures |vs| == |x.pairs| + (if x.finalValue.Some? then 1 else 0)
  {
    var it := RefIter(0);
    vs := [];
    var step := Next(x, it);
    while step.item.Some?
      invariant it.index <= |Values(x)|
      invariant step == Next(x, it)
      invariant vs == Values(x)[..it.index]
      decreases |Values(x)| - it.index
    {
      vs := vs + [step.item.value];
      it := step.iter;
      step := Next(x, it);
    }
  }
}

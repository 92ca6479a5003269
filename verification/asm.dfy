/**
  Inline assembly blocks (`new-parser-again/src/expr/asm.rs`):
  `asm(r1: expr, r2, ...) { op args; ...; r [: Ty] }`.
 */
module AsmExprs {
  import opened Common
  import opened Spans
  import opened Parsing
  import opened Idents
  import opened Punctuation
  import opened Brackets
  import opened Nodes

  datatype AsmRegisterDeclaration = AsmRegisterDeclaration(register: Ident, valueOpt: Option<(Token, Expr)>)

  datatype AsmFinalExpr = AsmFinalExpr(register: Ident, tyOpt: Option<(Token, Ty)>)

  datatype AsmBlockContents =
    AsmBlockContents(instructions: seq<(Instruction, Token)>, finalExprOpt: Option<AsmFinalExpr>)

  datatype AsmBlock = AsmBlock(
    asmToken: Token,
    registers: Bracketed<Punctuated<AsmRegisterDeclaration, Token>>,
    contents: Bracketed<AsmBlockContents>)

  /** An immediate operand: the ident's span and its unbounded unsigned value. */
  datatype AsmImmediate = AsmImmediate(span: Span, parsed: nat)

  // ------------------------------------------------- register declarations

  /**
    `Parse for AsmRegisterDeclaration`: a register name, then an initializer
    exactly when a colon follows the name. The expression after the colon must
    parse, or the declaration fails with that expression's log.
   */
  function ParseRegisterDeclaration(p: Parser, expr: Parser -> ParseResult<Expr>)
    : (r: ParseResult<AsmRegisterDeclaration>)
    requires Productive(expr)
    ensures Advances(p, r)
    ensures !(|p.rest| > 0 && p.rest[0].IdentTree?) ==>
              r == Err(p.log + [ParseError(ExpectedIdent, CurrentSpan(p))])
    ensures |p.rest| > 0 && p.rest[0].IdentTree? && !(|p.rest| > 1 && Matches(p.rest[1], APunct(Colon))) ==>
              r == Ok(AsmRegisterDeclaration(Ident(p.rest[0].span), None), p.(rest := p.rest[1..]))
    ensures |p.rest| > 1 && p.rest[0].IdentTree? && Matches(p.rest[1], APunct(Colon)) ==>
              var e := expr(p.(rest := p.rest[2..]));
              && (e.Err? ==> r == Err(e.log))
              && (e.Ok? ==>
                    r == Ok(AsmRegisterDeclaration(Ident(p.rest[0].span), Some((Token(p.rest[1].span), e.value))),
                            e.parser))
  {
    match ParseIdent(p)
    case Err(log) => Err(log)
    case Ok(register, p1) =>
      match Take(p1, APunct(Colon))
      case NotTaken => Ok(AsmRegisterDeclaration(register, None), p1)
      case Took(colon, p2) =>
        assert p2 == p.(rest := p.rest[2..]);
        match expr(p2)
        case Err(log) => Err(log)
        case Ok(value, p3) =>
          ContinuesTransitive(p, p2, p3);
          Ok(AsmRegisterDeclaration(register, Some((Token(colon), value))), p3)
  }

  /** The token trees of `r` or `r: e`, for a one-token expression `e`. */
  function RenderRegister(d: AsmRegisterDeclaration): seq<TokenTree>
  {
    [IdentTree(d.register.span)]
    + match d.valueOpt
      case None => []
      case Some((colon, e)) => [PunctTree(Colon, colon.span), IdentTree(e.span)]
  }

  /**
    Every register declaration with a one-token initializer is read back from
    its tokens; an uninitialised one as long as no colon follows it.
   */
  lemma RegisterRoundTrip(d: AsmRegisterDeclaration, after: seq<TokenTree>, full: Span, log: Log)
    requires d.valueOpt.None? ==> !(|after| > 0 && Matches(after[0], APunct(Colon)))
    ensures ParseRegisterDeclaration(Parser(RenderRegister(d) + after, full, log), IdentExpr)
            == Ok(d, Parser(after, full, log))
  {
    var p := Parser(RenderRegister(d) + after, full, log);
    if d.valueOpt.Some? {
      assert p.rest[2] == IdentTree(d.valueOpt.value.1.span);
      assert p.rest[2..][1..] == after;
    } else {
      assert p.rest[1..] == after;
    }
  }

  /** The parenthesised, comma-separated register declarations, read to the end. */
  function ParseRegisters(p: Parser, expr: Parser -> ParseResult<Expr>)
    : (r: ParseResult<Punctuated<AsmRegisterDeclaration, Token>>)
    requires Productive(expr)
    ensures Finishes(p, r)
    ensures IsEmpty(p) ==> r == Ok(Punctuated([], None), p)
    ensures r.Ok? && !IsEmpty(p) ==> |r.value.pairs| > 0 || r.value.finalValue.Some?
  {
    Punctuation.ParseToEnd(p, q => ParseRegisterDeclaration(q, expr), ParseComma)
  }

  // ------------------------------------------------------ the block body

  const TrailingAfterFinal := "unexpected tokens after final expression in asm block"

  /**
    `parse_instruction` (defined outside the modelled files) reads the operands
    after an opcode ident. It is only required to step: a success may consume
    nothing, as for an opcode without operands.
   */
  ghost predicate InstructionSteps(instr: (Ident, Parser) -> ParseResult<Instruction>)
  {
    forall i, p :: Steps(p, instr(i, p))
  }

  /**
    `ParseToEnd for AsmBlockContents`. Each turn reads one ident, then:
    (a) if the scope is empty, the ident is an untyped final register;
    (b) else if a colon follows, a type is parsed and the scope must then be
        empty, otherwise the parse fails and is never read as an instruction;
    (c) else the ident opens an instruction, a semicolon must follow it, and
        the pair is appended before the next turn.
   */
  function ContentsLoop(p: Parser, ty: Parser -> ParseResult<Ty>,
                        instr: (Ident, Parser) -> ParseResult<Instruction>,
                        acc: seq<(Instruction, Token)>)
    : (r: ParseResult<AsmBlockContents>)
    requires Productive(ty) && InstructionSteps(instr)
    ensures Finishes(p, r)
    ensures r.Ok? ==> acc <= r.value.instructions
    decreases |p.rest|
  {
    if IsEmpty(p) then Ok(AsmBlockContents(acc, None), p)
    else
      match ParseIdent(p)
      case Err(log) => Err(log)
      case Ok(ident, p1) =>
        if IsEmpty(p1) then Ok(AsmBlockContents(acc, Some(AsmFinalExpr(ident, None))), p1)
        else
          match Take(p1, APunct(Colon))
          case Took(colon, p2) =>
            (match ty(p2)
             case Err(log) => Err(log)
             case Ok(t, p3) =>
               if IsEmpty(p3) then
                 Ok(AsmBlockContents(acc, Some(AsmFinalExpr(ident, Some((Token(colon), t))))), p3)
               else Err(EmitError(p3, TrailingAfterFinal)))
          case NotTaken =>
            match instr(ident, p1)
            case Err(log) => Err(log)
            case Ok(instruction, p3) =>
              match ParseToken(p3, APunct(Semicolon))
              case Err(log) => Err(log)
              case Ok(semicolon, p4) =>
                var r := ContentsLoop(p4, ty, instr, acc + [(instruction, semicolon)]);
                assert r.Ok? ==> acc <= acc + [(instruction, semicolon)] <= r.value.instructions;
                r
  }

  /** The whole brace interior becomes the contents; an empty one has no instructions and no final expression. */
  function ParseContents(p: Parser, ty: Parser -> ParseResult<Ty>,
                         instr: (Ident, Parser) -> ParseResult<Instruction>)
    : (r: ParseResult<AsmBlockContents>)
    requires Productive(ty) && InstructionSteps(instr)
    ensures Finishes(p, r)
    ensures IsEmpty(p) ==> r == Ok(AsmBlockContents([], None), p)
  {
    ContentsLoop(p, ty, instr, [])
  }

  /** (a) A lone ident at the end of the body is an untyped final register. */
  lemma UntypedFinalRegister(p: Parser, ty: Parser -> ParseResult<Ty>,
                             instr: (Ident, Parser) -> ParseResult<Instruction>,
                             acc: seq<(Instruction, Token)>)
    requires Productive(ty) && InstructionSteps(instr)
    requires |p.rest| == 1 && p.rest[0].IdentTree?
    ensures ContentsLoop(p, ty, instr, acc)
            == Ok(AsmBlockContents(acc, Some(AsmFinalExpr(Ident(p.rest[0].span), None))),
                  p.(rest := []))
  {
  }

  /**
    (b) `r: Ty` ends the body: with nothing after the type it is a typed final
    register; with anything after it the whole body fails with "unexpected
    tokens after final expression in asm block".
   */
  lemma TypedFinalRegister(p: Parser, ty: Parser -> ParseResult<Ty>,
                           instr: (Ident, Parser) -> ParseResult<Instruction>,
                           acc: seq<(Instruction, Token)>)
    requires Productive(ty) && InstructionSteps(instr)
    requires |p.rest| >= 2 && p.rest[0].IdentTree? && Matches(p.rest[1], APunct(Colon))
    ensures var afterColon := p.(rest := p.rest[2..]);
            var t := ty(afterColon);
            && (t.Err? ==> ContentsLoop(p, ty, instr, acc) == Err(t.log))
            && (t.Ok? && IsEmpty(t.parser) ==>
                  ContentsLoop(p, ty, instr, acc)
                  == Ok(AsmBlockContents(acc, Some(AsmFinalExpr(Ident(p.rest[0].span),
                                                                 Some((Token(p.rest[1].span), t.value))))),
                        t.parser))
            && (t.Ok? && !IsEmpty(t.parser) ==>
                  ContentsLoop(p, ty, instr, acc) == Err(EmitError(t.parser, TrailingAfterFinal)))
  {
    assert p.(rest := p.rest[1..]).(rest := p.rest[1..][1..]) == p.(rest := p.rest[2..]);
  }

  /**
    (c) An ident followed by anything but a colon opens an instruction; after
    its operands a semicolon is required, and the pair is appended in order.
   */
  lemma InstructionTurn(p: Parser, ty: Parser -> ParseResult<Ty>,
                        instr: (Ident, Parser) -> ParseResult<Instruction>,
                        acc: seq<(Instruction, Token)>)
    requires Productive(ty) && InstructionSteps(instr)
    requires |p.rest| >= 2 && p.rest[0].IdentTree? && !Matches(p.rest[1], APunct(Colon))
    ensures var i := instr(Ident(p.rest[0].span), p.(rest := p.rest[1..]));
            && (i.Err? ==> ContentsLoop(p, ty, instr, acc) == Err(i.log))
            && (i.Ok? ==>
                  var semi := ParseToken(i.parser, APunct(Semicolon));
                  && (semi.Err? ==> ContentsLoop(p, ty, instr, acc) == Err(semi.log))
                  && (semi.Ok? ==>
                        ContentsLoop(p, ty, instr, acc)
                        == ContentsLoop(semi.parser, ty, instr, acc + [(i.value, semi.value)])))
  {
  }

  /**
    The body `add r1 r2 r3; r1`, for any `parse_instruction` that reads the
    operands of `add` up to the semicolon: one instruction and an untyped
    final register `r1`, with every token consumed.
   */
  lemma OneInstructionThenFinalRegister(p: Parser, ty: Parser -> ParseResult<Ty>,
                                        instr: (Ident, Parser) -> ParseResult<Instruction>,
                                        semicolon: Span, register: Span,
                                        ins: Instruction, log: Log)
    requires Productive(ty) && InstructionSteps(instr)
    requires |p.rest| >= 2 && p.rest[0].IdentTree? && !Matches(p.rest[1], APunct(Colon))
    requires instr(Ident(p.rest[0].span), p.(rest := p.rest[1..]))
             == Ok(ins, Parser([PunctTree(Semicolon, semicolon), IdentTree(register)], p.full, log))
    ensures ParseContents(p, ty, instr)
            == Ok(AsmBlockContents([(ins, Token(semicolon))], Some(AsmFinalExpr(Ident(register), None))),
                  Parser([], p.full, log))
  {
    var afterIns := Parser([PunctTree(Semicolon, semicolon), IdentTree(register)], p.full, log);
    var afterSemi := Parser([IdentTree(register)], p.full, log);
    var acc := [(ins, Token(semicolon))];
    assert ParseToken(afterIns, APunct(Semicolon)) == Ok(Token(semicolon), afterSemi);
    assert [] + acc == acc;
    assert ContentsLoop(p, ty, instr, []) == ContentsLoop(afterSemi, ty, instr, acc) by {
      InstructionTurn(p, ty, instr, []);
    }
    UntypedFinalRegister(afterSemi, ty, instr, acc);
  }

  /** An opcode without operands, such as `noop`: the instruction is the opcode itself. */
  function Opcode(i: Ident, p: Parser): ParseResult<Instruction>
  {
    Ok(Instruction(i.span), p)
  }

  /** The token trees of `op; op; ...` for opcodes without operands. */
  function RenderInstructions(ins: seq<(Instruction, Token)>): seq<TokenTree>
  {
    if |ins| == 0 then []
    else [IdentTree(ins[0].0.span), PunctTree(Semicolon, ins[0].1.span)] + RenderInstructions(ins[1..])
  }

  /** The token trees of the final register, `r` or `r: T` for a one-token type. */
  function RenderFinal(f: Option<AsmFinalExpr>): seq<TokenTree>
  {
    match f
    case None => []
    case Some(AsmFinalExpr(r, None)) => [IdentTree(r.span)]
    case Some(AsmFinalExpr(r, Some((colon, t)))) => [IdentTree(r.span), PunctTree(Colon, colon.span), IdentTree(t.span)]
  }

  function RenderContents(c: AsmBlockContents): seq<TokenTree>
  {
    RenderInstructions(c.instructions) + RenderFinal(c.finalExprOpt)
  }

  /** The tail of the body: no final register, `r`, or `r: T`, read back as itself. */
  lemma FinalRoundTrip(f: Option<AsmFinalExpr>, acc: seq<(Instruction, Token)>, full: Span, log: Log)
    ensures ContentsLoop(Parser(RenderFinal(f), full, log), IdentTy, Opcode, acc)
            == Ok(AsmBlockContents(acc, f), Parser([], full, log))
  {
    var p := Parser(RenderFinal(f), full, log);
    match f
    case None =>
    case Some(AsmFinalExpr(r, None)) =>
      UntypedFinalRegister(p, IdentTy, Opcode, acc);
    case Some(AsmFinalExpr(r, Some((colon, t)))) =>
      assert p.rest[2..] == [IdentTree(t.span)];
      assert IdentTy(p.(rest := p.rest[2..])) == Ok(t, Parser([], full, log));
      TypedFinalRegister(p, IdentTy, Opcode, acc);
  }

  /** One rendered `op;` is read back as the pair it was rendered from, and the loop goes on after it. */
  lemma RenderedInstruction(ins: seq<(Instruction, Token)>, tail: seq<TokenTree>,
                            acc: seq<(Instruction, Token)>, full: Span, log: Log)
    requires |ins| > 0
    ensures ContentsLoop(Parser(RenderInstructions(ins) + tail, full, log), IdentTy, Opcode, acc)
            == ContentsLoop(Parser(RenderInstructions(ins[1..]) + tail, full, log), IdentTy, Opcode, acc + [ins[0]])
  {
    var rest := RenderInstructions(ins[1..]) + tail;
    var head := [IdentTree(ins[0].0.span), PunctTree(Semicolon, ins[0].1.span)];
    assert RenderInstructions(ins) + tail == head + rest;
    var p := Parser(head + rest, full, log);
    var p1 := Parser([PunctTree(Semicolon, ins[0].1.span)] + rest, full, log);
    assert p.rest[1..] == p1.rest;
    assert p1.rest[1..] == rest;
    assert ParseToken(p1, APunct(Semicolon)) == Ok(ins[0].1, Parser(rest, full, log));
    InstructionTurn(p, IdentTy, Opcode, acc);
  }

  lemma {:induction false} InstructionsRoundTrip(ins: seq<(Instruction, Token)>, f: Option<AsmFinalExpr>,
                                                 acc: seq<(Instruction, Token)>, full: Span, log: Log)
    ensures ContentsLoop(Parser(RenderInstructions(ins) + RenderFinal(f), full, log), IdentTy, Opcode, acc)
            == Ok(AsmBlockContents(acc + ins, f), Parser([], full, log))
    decreases |ins|
  {
    if |ins| == 0 {
      assert RenderInstructions(ins) + RenderFinal(f) == RenderFinal(f);
      assert acc + ins == acc;
      FinalRoundTrip(f, acc, full, log);
    } else {
      assert (acc + [ins[0]]) + ins[1..] == acc + ins by {
        assert [ins[0]] + ins[1..] == ins;
      }
      RenderedInstruction(ins, RenderFinal(f), acc, full, log);
      InstructionsRoundTrip(ins[1..], f, acc + [ins[0]], full, log);
    }
  }

  /**
    Every body of operand-free instructions and a final register is read back
    from its tokens: the instructions in order, the final register as written,
    and the whole interior consumed.
   */
  lemma ContentsRoundTrip(c: AsmBlockContents, full: Span, log: Log)
    ensures ParseContents(Parser(RenderContents(c), full, log), IdentTy, Opcode) == Ok(c, Parser([], full, log))
  {
    InstructionsRoundTrip(c.instructions, c.finalExprOpt, [], full, log);
    assert [] + c.instructions == c.instructions;
  }

  // ------------------------------------------------------------ the block

  /**
    `Parse for AsmBlock`: the `asm` keyword, the parenthesised registers, the
    braced body, each required in turn. The registers are the declarations
    read to the end of the parentheses and the contents are the body read to
    the end of the braces; the first part that is missing or fails fails the
    block with its log.
   */
  function ParseAsmBlock(p: Parser, expr: Parser -> ParseResult<Expr>, ty: Parser -> ParseResult<Ty>,
                         instr: (Ident, Parser) -> ParseResult<Instruction>)
    : (r: ParseResult<AsmBlock>)
    requires Productive(expr) && Productive(ty) && InstructionSteps(instr)
    ensures Advances(p, r)
    ensures !(|p.rest| > 0 && Matches(p.rest[0], AKeyword("asm"))) ==>
              r == Err(EmitError(p, Expected(AKeyword("asm"))))
    ensures |p.rest| > 0 && Matches(p.rest[0], AKeyword("asm")) ==>
              var p1 := p.(rest := p.rest[1..]);
              && (!OpensWith(p1, Parenthesis) ==> r == Err(EmitError(p1, OpeningError(Parenthesis))))
              && (OpensWith(p1, Parenthesis) && ParseRegisters(Interior(p1), expr).Err? ==>
                    r == Err(ParseRegisters(Interior(p1), expr).log))
    ensures |p.rest| > 0 && Matches(p.rest[0], AKeyword("asm"))
            && OpensWith(p.(rest := p.rest[1..]), Parenthesis)
            && ParseRegisters(Interior(p.(rest := p.rest[1..])), expr).Ok? ==>
              var p1 := p.(rest := p.rest[1..]);
              var regs := ParseRegisters(Interior(p1), expr);
              var p2 := GroupExit(p1, regs.parser);
              && (!OpensWith(p2, Brace) ==> r == Err(EmitError(p2, OpeningError(Brace))))
              && (OpensWith(p2, Brace) && ParseContents(Interior(p2), ty, instr).Err? ==>
                    r == Err(ParseContents(Interior(p2), ty, instr).log))
              && (r.Ok? <==> OpensWith(p2, Brace) && ParseContents(Interior(p2), ty, instr).Ok?)
              && (r.Ok? ==>
                    var c := ParseContents(Interior(p2), ty, instr);
                    && r.value == AsmBlock(Token(p.rest[0].span), Bracketed(regs.value, p1.rest[0].span),
                                           Bracketed(c.value, p2.rest[0].span))
                    && r.parser == GroupExit(p2, c.parser))
    ensures r.Ok? ==>
              && |p.rest| >= 3
              && Matches(p.rest[0], AKeyword("asm"))
              && p.rest[1].Group? && p.rest[1].delimiter == Parenthesis
              && p.rest[2].Group? && p.rest[2].delimiter == Brace
              && r.value.registers.span == p.rest[1].span
              && r.value.contents.span == p.rest[2].span
              && r.parser.rest == p.rest[3..]
  {
    match ParseToken(p, AKeyword("asm"))
    case Err(log) => Err(log)
    case Ok(asmToken, p1) =>
      match Brackets.Parse(p1, Parenthesis, q => ParseRegisters(q, expr))
      case Err(log) => Err(log)
      case Ok(registers, p2) =>
        match Brackets.Parse(p2, Brace, q => ParseContents(q, ty, instr))
        case Err(log) => Err(log)
        case Ok(contents, p3) =>
          ContinuesTransitive(p, p1, p2);
          ContinuesTransitive(p, p2, p3);
          assert p1.rest[1..][1..] == p.rest[3..];
          Ok(AsmBlock(asmToken, registers, contents), p3)
  }

  /**
    A block `asm(registers) { body }` is accepted whenever its registers read
    the whole parentheses, and then holds those registers and, for a body of
    operand-free instructions, exactly the body it was written with.
   */
  lemma AsmBlockAccepted(asmSpan: Span, registers: seq<TokenTree>, parens: Span, c: AsmBlockContents,
                         braces: Span, after: seq<TokenTree>, full: Span, log: Log,
                         expr: Parser -> ParseResult<Expr>)
    requires Productive(expr)
    requires AsStr(asmSpan) == "asm"
    requires ParseRegisters(Parser(registers, parens, log), expr).Ok?
    ensures var regs := ParseRegisters(Parser(registers, parens, log), expr);
            ParseAsmBlock(Parser([IdentTree(asmSpan), Group(Parenthesis, registers, parens),
                                  Group(Brace, RenderContents(c), braces)] + after, full, log),
                          expr, IdentTy, Opcode)
            == Ok(AsmBlock(Token(asmSpan), Bracketed(regs.value, parens), Bracketed(c, braces)),
                  Parser(after, full, regs.parser.log))
  {
    var regs := ParseRegisters(Parser(registers, parens, log), expr);
    var p := Parser([IdentTree(asmSpan), Group(Parenthesis, registers, parens),
                     Group(Brace, RenderContents(c), braces)] + after, full, log);
    var p1 := p.(rest := p.rest[1..]);
    var p2 := GroupExit(p1, regs.parser);
    assert p.rest[0] == IdentTree(asmSpan);
    assert Interior(p1) == Parser(registers, parens, log);
    assert p2.rest == [Group(Brace, RenderContents(c), braces)] + after;
    assert p2.rest[1..] == after;
    assert Interior(p2) == Parser(RenderContents(c), braces, regs.parser.log);
    ContentsRoundTrip(c, braces, regs.parser.log);
  }

  // ------------------------------------------------------- immediates

  predicate IsDigit(c: char) { '0' <= c <= '9' }

  /** The syntax accepted as an unsigned decimal: one or more ASCII digits. */
  predicate IsDecimal(t: string)
  {
    |t| > 0 && forall i :: 0 <= i < |t| ==> IsDigit(t[i])
  }

  function DigitValue(c: char): nat
    requires IsDigit(c)
  {
    (c as int - '0' as int) as nat
  }

  function Digit(d: nat): (c: char)
    requires d < 10
    ensures IsDigit(c) && DigitValue(c) == d
  {
    ('0' as int + d) as char
  }

  /** The value of a string of decimal digits, most significant first. */
  function DecimalValue(t: string): nat
    requires forall i :: 0 <= i < |t| ==> IsDigit(t[i])
  {
    if |t| == 0 then 0 else 10 * DecimalValue(t[..|t| - 1]) + DigitValue(t[|t| - 1])
  }

  /** The decimal spelling of `n`, the reference the parser is checked against. */
  function ToDecimal(n: nat): (t: string)
    ensures IsDecimal(t)
  {
    if n < 10 then [Digit(n)] else ToDecimal(n / 10) + [Digit(n % 10)]
  }

  lemma {:induction false} DecimalRoundTrip(n: nat)
    ensures DecimalValue(ToDecimal(n)) == n
  {
    if n >= 10 {
      var t := ToDecimal(n);
      assert t[..|t| - 1] == ToDecimal(n / 10);
      DecimalRoundTrip(n / 10);
    }
  }

  /** `BigUint::from_str` on the digits after the `i`. */
  function ParseBigUint(t: string): (r: Option<nat>)
    ensures r.Some? <==> IsDecimal(t)
  {
    if IsDecimal(t) then Some(DecimalValue(t)) else None
  }

  const ImmediatePrefixError := "immediate values must start with 'i'"
  const ImmediateValueError := "unable to parse immediate value"

  /**
    `Parse for AsmImmediate`: an ident whose text is `i` followed by decimal
    digits. Without the leading `i` it fails with "immediate values must start
    with 'i'"; with digits that do not parse (`ix`, a bare `i`) it fails with
    "unable to parse immediate value". Both diagnostics are recorded after the
    ident was consumed. On success the span is the ident's span.
   */
  function ParseImmediate(p: Parser): (r: ParseResult<AsmImmediate>)
    ensures Advances(p, r)
    ensures r.Ok? <==>
              && |p.rest| > 0 && p.rest[0].IdentTree?
              && var t := AsStr(p.rest[0].span); |t| > 0 && t[0] == 'i' && IsDecimal(t[1..])
    ensures r.Ok? ==>
              && r.value.span == p.rest[0].span
              && r.value.parsed == DecimalValue(AsStr(p.rest[0].span)[1..])
              && r.parser == p.(rest := p.rest[1..])
    ensures |p.rest| > 0 && p.rest[0].IdentTree? ==>
              var t := AsStr(p.rest[0].span);
              var after := p.(rest := p.rest[1..]);
              && (!(|t| > 0 && t[0] == 'i') ==> r == Err(EmitError(after, ImmediatePrefixError)))
              && (|t| > 0 && t[0] == 'i' && !IsDecimal(t[1..]) ==>
                    r == Err(EmitError(after, ImmediateValueError)))
  {
    match ParseIdent(p)
    case Err(log) => Err(log)
    case Ok(ident, p1) =>
      var text := Text(ident);
      if !(|text| > 0 && text[0] == 'i') then Err(EmitError(p1, ImmediatePrefixError))
      else
        match ParseBigUint(text[1..])
        case None => Err(EmitError(p1, ImmediateValueError))
        case Some(n) => Ok(AsmImmediate(ident.span, n), p1)
  }

  /** Every unsigned value is read back from its `i`-prefixed decimal spelling. */
  lemma ImmediateRoundTrip(p: Parser, n: nat)
    requires |p.rest| > 0 && p.rest[0].IdentTree?
    requires AsStr(p.rest[0].span) == "i" + ToDecimal(n)
    ensures ParseImmediate(p) == Ok(AsmImmediate(p.rest[0].span, n), p.(rest := p.rest[1..]))
  {
    var t := AsStr(p.rest[0].span);
    assert t[1..] == ToDecimal(n);
    DecimalRoundTrip(n);
  }

  /** `i42` is 42; `42` lacks the prefix; `ix` and `i` have no value. */
  lemma ImmediateExamples(full: Span, log: Log)
    ensures var i42 := Parser([IdentTree(RawSpan("i42", 0, 3, None))], full, log);
            ParseImmediate(i42).Ok? && ParseImmediate(i42).value.parsed == 42
    ensures var bare := Parser([IdentTree(RawSpan("42", 0, 2, None))], full, log);
            ParseImmediate(bare) == Err(log + [ParseError(ImmediatePrefixError, full)])
    ensures var ix := Parser([IdentTree(RawSpan("ix", 0, 2, None))], full, log);
            ParseImmediate(ix) == Err(log + [ParseError(ImmediateValueError, full)])
    ensures var i := Parser([IdentTree(RawSpan("i", 0, 1, None))], full, log);
            ParseImmediate(i) == Err(log + [ParseError(ImmediateValueError, full)])
  {
    var s42: Span := RawSpan("i42", 0, 3, None);
    assert AsStr(s42) == "i" + ToDecimal(42) by {
      assert ToDecimal(42) == ToDecimal(4) + [Digit(2)];
    }
    ImmediateRoundTrip(Parser([IdentTree(s42)], full, log), 42);
    var s2: Span := RawSpan("42", 0, 2, None);
    assert AsStr(s2)[0] == '4';
    var sx: Span := RawSpan("ix", 0, 2, None);
    assert AsStr(sx)[1..] == "x";
    assert !IsDigit('x');
    var si: Span := RawSpan("i", 0, 1, None);
    assert AsStr(si)[1..] == "";
  }
}

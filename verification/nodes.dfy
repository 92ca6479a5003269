/**
  Syntax nodes of the new parser whose definitions and parsers are not part of
  this model (types, expressions, generics, function signatures, fields, ...).
  Each stand-in keeps only what the modelled code reads from it, including the
  span its `span()` method would return. Their parsers enter the model as
  parameters that satisfy `Parsing.Productive` or `Parsing.ToEnd`, except
  `parse_instruction`, which is only required to step (`Parsing.Steps`) and
  so may succeed without consuming anything. `IdentTy` and `IdentExpr` are
  one-token instances, used to state round trips.
 */
module Nodes {
  import opened Common
  import opened Spans
  import opened Parsing
  import opened Idents
  import opened Punctuation
  import opened Brackets

  datatype Ty = Ty(span: Span)

  datatype Expr = Expr(span: Span)

  /** An asm instruction (`parse_instruction` is defined outside the modelled files). */
  datatype Instruction = Instruction(span: Span)

  datatype FnArgs = FnArgs(span: Span)

  datatype CodeBlockContents = CodeBlockContents(span: Span)

  datatype PathType = PathType(span: Span)

  datatype StorageField = StorageField(span: Span)

  datatype ItemUse = ItemUse(span: Span)

  /** `<T, U, ...>`: comma-separated parameter names in angle brackets. */
  datatype GenericParams = GenericParams(parameters: AngleBrackets<Punctuated<Ident, Token>>)

  /** `name: Ty`, a struct field or an enum variant. */
  datatype TypeField = TypeField(name: Ident, colonToken: Token, ty: Ty, span: Span)

  /** `[pub] [impure] fn name[<..>](args) [-> Ty]`. */
  datatype FnSignature = FnSignature(
    visibility: Option<Token>,
    impure: Option<Token>,
    fnToken: Token,
    name: Ident,
    generics: Option<GenericParams>,
    arguments: Bracketed<FnArgs>,
    returnTypeOpt: Option<(Token, Ty)>,
    span: Span)

  /** A one-token type, an identifier; used to state round trips of the parsers that read types. */
  function IdentTy(p: Parser): (r: ParseResult<Ty>)
    ensures Advances(p, r)
    ensures r.Ok? <==> |p.rest| > 0 && p.rest[0].IdentTree?
    ensures r.Ok? ==> r == Ok(Ty(p.rest[0].span), p.(rest := p.rest[1..]))
  {
    match ParseIdent(p)
    case Err(log) => Err(log)
    case Ok(i, q) => Ok(Ty(i.span), q)
  }

  /** A one-token expression, an identifier; used to state round trips of the parsers that read expressions. */
  function IdentExpr(p: Parser): (r: ParseResult<Expr>)
    ensures Advances(p, r)
    ensures r.Ok? <==> |p.rest| > 0 && p.rest[0].IdentTree?
    ensures r.Ok? ==> r == Ok(Expr(p.rest[0].span), p.(rest := p.rest[1..]))
  {
    match ParseIdent(p)
    case Err(log) => Err(log)
    case Ok(i, q) => Ok(Expr(i.span), q)
  }
}

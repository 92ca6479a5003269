/**
  The compiler's parse tree, the target of the conversion. Node contents the
  conversion only obtains from helpers it does not define (code blocks,
  parameters, trait functions, super-traits, call paths, expressions, storage
  fields, trait constraints) are opaque types.
 */
module ParseTrees {
  import opened Spans
  import opened Idents
  import opened Nodes

  type CodeBlock(==)
  type FunctionParameter(==)
  type TraitFn(==)
  type Supertrait(==)
  type CallPath(==)
  type Expression(==)
  type StorageFieldDecl(==)
  type TraitConstraint(==)

  datatype TreeType = ScriptTree | ContractTree | PredicateTree | LibraryTree(name: Ident)

  datatype Visibility = Public | Private

  datatype Purity = Pure | Impure

  /**
    Type information: the variants the conversion builds itself, and `Other`
    standing for every variant only `ty_to_type_info` (a `todo!()` in the conversion) produces.
   */
  datatype TypeInfo = Unknown | Tuple(elements: seq<TypeInfo>) | Custom(name: Ident) | Other(code: nat)

  datatype TypeParameter = TypeParameter(name: TypeInfo, nameIdent: Ident, traitConstraints: seq<TraitConstraint>)

  datatype StructField = StructField(name: Ident, fieldType: TypeInfo, span: Span, typeSpan: Span)

  datatype EnumVariant = EnumVariant(name: Ident, variantType: TypeInfo, tag: nat, span: Span)

  datatype StructDeclaration = StructDeclaration(
    name: Ident,
    fields: seq<StructField>,
    typeParameters: seq<TypeParameter>,
    visibility: Visibility)

  datatype EnumDeclaration = EnumDeclaration(
    name: Ident,
    typeParameters: seq<TypeParameter>,
    variants: seq<EnumVariant>,
    span: Span,
    visibility: Visibility)

  datatype FunctionDeclaration = FunctionDeclaration(
    purity: Purity,
    name: Ident,
    visibility: Visibility,
    body: CodeBlock,
    parameters: seq<FunctionParameter>,
    span: Span,
    returnType: TypeInfo,
    typeParameters: seq<TypeParameter>,
    returnTypeSpan: Span)

  datatype TraitDeclaration = TraitDeclaration(
    name: Ident,
    interfaceSurface: seq<TraitFn>,
    methods: seq<FunctionDeclaration>,
    typeParameters: seq<TypeParameter>,
    supertraits: seq<Supertrait>,
    visibility: Visibility)

  datatype ImplTrait = ImplTrait(
    traitName: CallPath,
    typeImplementingFor: TypeInfo,
    typeImplementingForSpan: Span,
    typeArguments: seq<TypeParameter>,
    functions: seq<FunctionDeclaration>,
    blockSpan: Span,
    typeArgumentsSpan: Span)

  datatype ImplSelf = ImplSelf(
    typeImplementingFor: TypeInfo,
    typeArguments: seq<TypeParameter>,
    functions: seq<FunctionDeclaration>,
    blockSpan: Span,
    typeArgumentsSpan: Span,
    typeNameSpan: Span)

  datatype AbiDeclaration = AbiDeclaration(
    name: Ident,
    interfaceSurface: seq<TraitFn>,
    methods: seq<FunctionDeclaration>,
    span: Span)

  datatype ConstantDeclaration = ConstantDeclaration(
    name: Ident,
    typeAscription: TypeInfo,
    value: Expression,
    visibility: Visibility)

  datatype StorageDeclaration = StorageDeclaration(span: Span, fields: seq<StorageFieldDecl>)

  datatype Declaration =
    | StructDecl(structDecl: StructDeclaration)
    | EnumDecl(enumDecl: EnumDeclaration)
    | FunctionDecl(fnDecl: FunctionDeclaration)
    | TraitDecl(traitDecl: TraitDeclaration)
    | ImplTraitDecl(implTrait: ImplTrait)
    | ImplSelfDecl(implSelf: ImplSelf)
    | AbiDecl(abiDecl: AbiDeclaration)
    | ConstantDecl(constDecl: ConstantDeclaration)
    | StorageDecl(storageDecl: StorageDeclaration)

  /** A `use` statement is carried over as the parser's node. */
  datatype AstNodeContent = UseStatement(itemUse: ItemUse) | Declaration(declaration: Declaration)

  datatype AstNode = AstNode(span: Span, content: AstNodeContent)

  datatype ParseTree = ParseTree(span: Span, rootNodes: seq<AstNode>)

  datatype SwayParseTree = SwayParseTree(treeType: TreeType, tree: ParseTree)
}

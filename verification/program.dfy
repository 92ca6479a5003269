/**
  The new parser's program and item types that the conversion reads. Only the
  trait, enum and fn items are parsed in this model; the others are stand-ins
  holding the fields the conversion uses, with their parsers and `span`
  methods not part of this model.
 */
module Programs {
  import opened Common
  import opened Spans
  import opened Parsing
  import opened Idents
  import opened Punctuation
  import opened Brackets
  import opened Nodes
  import opened ItemFns
  import opened ItemTraits
  import opened ItemEnums

  /** The program's header; the tokens of each kind are not read by the conversion and are dropped. */
  datatype ProgramKind = Script | Contract | Predicate | Library(name: Ident)

  datatype ItemStruct = ItemStruct(
    visibility: Option<Token>,
    name: Ident,
    generics: Option<GenericParams>,
    fields: Bracketed<Punctuated<TypeField, Token>>)

  /** `impl [Trait for] Ty { fn items }`. */
  datatype ItemImpl = ItemImpl(
    traitOpt: Option<(PathType, Token)>,
    ty: Ty,
    contents: Bracketed<seq<ItemFn>>)

  datatype ItemAbi = ItemAbi(
    name: Ident,
    abiItems: Bracketed<seq<(FnSignature, Token)>>,
    abiDefsOpt: Option<Bracketed<seq<ItemFn>>>)

  datatype ItemConst = ItemConst(
    visibility: Option<Token>,
    name: Ident,
    tyOpt: Option<(Token, Ty)>,
    expr: Expr)

  datatype ItemStorage = ItemStorage(fields: Bracketed<Punctuated<StorageField, Token>>)

  datatype Item =
    | Use(itemUse: ItemUse)
    | Struct(itemStruct: ItemStruct)
    | Enum(itemEnum: ItemEnum)
    | Fn(itemFn: ItemFn)
    | Trait(itemTrait: ItemTrait)
    | Impl(itemImpl: ItemImpl)
    | Abi(itemAbi: ItemAbi)
    | Const(itemConst: ItemConst)
    | Storage(itemStorage: ItemStorage)

  datatype Program = Program(kind: ProgramKind, items: seq<Item>)
}

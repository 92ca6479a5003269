/**
  The conversion of a parsed program into the compiler's parse tree
  (`sway-core/src/convert_parse_tree.rs`). The helpers whose bodies are
  `todo!()` there, and the `span` methods of items this model does not
  parse, are the fields of a `Helpers` record: every property below holds
  whatever those helpers return.
 */
module Convert {
  import opened Common
  import opened Spans
  import opened Parsing
  import opened Idents
  import opened Punctuation
  import opened Brackets
  import opened Nodes
  import opened ItemFns
  import opened ItemTraits
  import opened ItemEnums
  import opened Programs
  import opened ParseTrees

  datatype Helpers = Helpers(
    codeBlock: CodeBlockContents -> CodeBlock,
    fnArgs: FnArgs -> seq<FunctionParameter>,
    typeInfo: Ty -> TypeInfo,
    traitFn: FnSignature -> TraitFn,
    supertraits: Traits -> seq<Supertrait>,
    callPath: PathType -> CallPath,
    expression: Expr -> Expression,
    storageField: StorageField -> StorageFieldDecl,
    programSpan: Program -> Span,
    itemSpan: Item -> Span,
    fnSpan: ItemFn -> Span,
    implSpan: ItemImpl -> Span,
    abiSpan: ItemAbi -> Span,
    storageSpan: ItemStorage -> Span)

  // ------------------------------------------------------------ small maps

  /** The program kind becomes the tree type; a library keeps its name. */
  function TreeTypeOf(k: ProgramKind): (t: TreeType)
    ensures t.ScriptTree? <==> k.Script?
    ensures t.ContractTree? <==> k.Contract?
    ensures t.PredicateTree? <==> k.Predicate?
    ensures t.LibraryTree? <==> k.Library?
    ensures t.LibraryTree? ==> t.name == k.name
  {
    match k
    case Script => ScriptTree
    case Contract => ContractTree
    case Predicate => PredicateTree
    case Library(name) => LibraryTree(name)
  }

  /** The program kind a tree type was made from. */
  function KindOf(t: TreeType): ProgramKind
  {
    match t
    case ScriptTree => Script
    case ContractTree => Contract
    case PredicateTree => Predicate
    case LibraryTree(name) => Library(name)
  }

  /** The kind mapping loses nothing: it is a bijection with inverse `KindOf`. */
  lemma TreeTypeIsBijective(k: ProgramKind, t: TreeType)
    ensures KindOf(TreeTypeOf(k)) == k
    ensures TreeTypeOf(KindOf(t)) == t
    ensures TreeTypeOf(k) == t <==> k == KindOf(t)
  {
  }

  /** `pub_token_opt_to_visibility`: public exactly when a `pub` token is present. */
  function VisibilityOf(pubToken: Option<Token>): (v: Visibility)
    ensures v == Public <==> pubToken.Some?
    ensures v == Private <==> pubToken.None?
  {
    match pubToken
    case Some(_) => Public
    case None => Private
  }

  /** `impure_token_opt_to_purity`: impure exactly when an `impure` token is present. */
  function PurityOf(impureToken: Option<Token>): (p: Purity)
    ensures p == Impure <==> impureToken.Some?
    ensures p == Pure <==> impureToken.None?
  {
    match impureToken
    case Some(_) => Impure
    case None => Pure
  }

  // --------------------------------------------------------------- generics

  /** The identifiers a generics list declares, in order; none when it is absent. */
  function GenericNames(g: Option<GenericParams>): seq<Ident>
  {
    if g.None? then [] else Values(g.value.parameters.inner)
  }

  /** One type parameter per ident: named `Custom(ident)`, with no trait constraints. */
  function ParamsFor(idents: seq<Ident>): (r: seq<TypeParameter>)
    ensures |r| == |idents|
    ensures forall i :: 0 <= i < |r| ==>
              r[i].nameIdent == idents[i] && r[i].name == Custom(idents[i]) && r[i].traitConstraints == []
  {
    if |idents| == 0 then []
    else [TypeParameter(Custom(idents[0]), idents[0], [])] + ParamsFor(idents[1..])
  }

  /** `generic_params_opt_to_type_parameters`. */
  function TypeParametersOf(g: Option<GenericParams>): (r: seq<TypeParameter>)
    ensures g.None? ==> r == []
    ensures |r| == |GenericNames(g)|
    ensures forall i :: 0 <= i < |r| ==>
              && r[i].nameIdent == GenericNames(g)[i]
              && r[i].name == Custom(GenericNames(g)[i])
              && r[i].traitConstraints == []
  {
    ParamsFor(GenericNames(g))
  }

  function ParamNames(ps: seq<TypeParameter>): (r: seq<Ident>)
    ensures |r| == |ps| && forall i :: 0 <= i < |r| ==> r[i] == ps[i].nameIdent
  {
    seq(|ps|, i requires 0 <= i < |ps| => ps[i].nameIdent)
  }

  /** Reading the names back off the type parameters gives the declared generics, in order. */
  lemma TypeParameterNamesRoundTrip(g: Option<GenericParams>)
    ensures ParamNames(TypeParametersOf(g)) == GenericNames(g)
  {
  }

  // ---------------------------------------------------------------- structs

  /** `type_field_to_struct_field`. */
  function StructFieldOf(f: TypeField, u: Helpers): StructField
  {
    StructField(f.name, u.typeInfo(f.ty), f.span, f.ty.span)
  }

  /** `item_struct_to_struct_declaration`: one field per declared field, in order. */
  function StructDeclOf(s: ItemStruct, u: Helpers): (d: StructDeclaration)
    ensures d.name == s.name
    ensures |d.fields| == |Values(s.fields.inner)|
    ensures forall i :: 0 <= i < |d.fields| ==>
              && d.fields[i].name == Values(s.fields.inner)[i].name
              && d.fields[i].fieldType == u.typeInfo(Values(s.fields.inner)[i].ty)
              && d.fields[i].span == Values(s.fields.inner)[i].span
              && d.fields[i].typeSpan == Values(s.fields.inner)[i].ty.span
    ensures d.typeParameters == TypeParametersOf(s.generics)
    ensures ParamNames(d.typeParameters) == GenericNames(s.generics)
    ensures d.visibility == Public <==> s.visibility.Some?
  {
    var fs := Values(s.fields.inner);
    TypeParameterNamesRoundTrip(s.generics);
    StructDeclaration(s.name, seq(|fs|, i requires 0 <= i < |fs| => StructFieldOf(fs[i], u)),
                      TypeParametersOf(s.generics), VisibilityOf(s.visibility))
  }

  // ------------------------------------------------------------------ enums

  /** `type_field_to_enum_variant` over a list, tagging each field with its position from `from`. */
  function VariantsFrom(fields: seq<TypeField>, from: nat, u: Helpers): (r: seq<EnumVariant>)
    ensures |r| == |fields|
    ensures forall i :: 0 <= i < |r| ==>
              && r[i].tag == from + i
              && r[i].name == fields[i].name
              && r[i].span == fields[i].span
              && r[i].variantType == u.typeInfo(fields[i].ty)
    decreases |fields|
  {
    if |fields| == 0 then []
    else [EnumVariant(fields[0].name, u.typeInfo(fields[0].ty), from, fields[0].span)]
         + VariantsFrom(fields[1..], from + 1, u)
  }

  /** `item_enum_to_enum_declaration`: variants tagged `0..n-1` in declaration order. */
  function EnumDeclOf(e: ItemEnum, u: Helpers): (d: EnumDeclaration)
    requires SameSource(e)
    ensures d.name == e.name
    ensures d.span == EnumSpan(e)
    ensures |d.variants| == |Values(e.fields.inner)|
    ensures forall i :: 0 <= i < |d.variants| ==>
              && d.variants[i].tag == i
              && d.variants[i].name == Values(e.fields.inner)[i].name
              && d.variants[i].variantType == u.typeInfo(Values(e.fields.inner)[i].ty)
              && d.variants[i].span == Values(e.fields.inner)[i].span
    ensures d.typeParameters == TypeParametersOf(e.generics)
    ensures ParamNames(d.typeParameters) == GenericNames(e.generics)
    ensures d.visibility == Public <==> e.visibility.Some?
  {
    TypeParameterNamesRoundTrip(e.generics);
    EnumDeclaration(e.name, TypeParametersOf(e.generics), VariantsFrom(Values(e.fields.inner), 0, u),
                    EnumSpan(e), VisibilityOf(e.visibility))
  }

  function Tags(vs: seq<EnumVariant>): (r: seq<nat>)
    ensures |r| == |vs| && forall i :: 0 <= i < |r| ==> r[i] == vs[i].tag
  {
    seq(|vs|, i requires 0 <= i < |vs| => vs[i].tag)
  }

  /** The tags of an enum are exactly `0, 1, ..., n-1`, so no two variants share one. */
  lemma EnumTagsAreIndices(e: ItemEnum, u: Helpers)
    requires SameSource(e)
    ensures var vs := EnumDeclOf(e, u).variants;
            && Tags(vs) == seq(|vs|, i => i)
            && forall i, j :: 0 <= i < j < |vs| ==> vs[i].tag != vs[j].tag
  {
  }

  // -------------------------------------------------------------- functions

  /** `item_fn_to_function_declaration`. */
  function FnDeclOf(f: ItemFn, u: Helpers): (d: FunctionDeclaration)
    ensures d.name == f.fnSignature.name
    ensures d.purity == Impure <==> f.fnSignature.impure.Some?
    ensures d.visibility == Public <==> f.fnSignature.visibility.Some?
    ensures d.span == u.fnSpan(f)
    ensures f.fnSignature.returnTypeOpt.None? ==>
              d.returnType == Tuple([]) && d.returnTypeSpan == f.fnSignature.span
    ensures f.fnSignature.returnTypeOpt.Some? ==>
              var ty := f.fnSignature.returnTypeOpt.value.1;
              d.returnType == u.typeInfo(ty) && d.returnTypeSpan == ty.span
    ensures d.typeParameters == TypeParametersOf(f.fnSignature.generics)
    ensures ParamNames(d.typeParameters) == GenericNames(f.fnSignature.generics)
    ensures d.body == u.codeBlock(f.body.inner)
    ensures d.parameters == u.fnArgs(f.fnSignature.arguments.inner)
  {
    var sig := f.fnSignature;
    TypeParameterNamesRoundTrip(sig.generics);
    var returnTypeSpan := match sig.returnTypeOpt
      case Some((_, ty)) => ty.span
      case None => sig.span;
    FunctionDeclaration(
      PurityOf(sig.impure), sig.name, VisibilityOf(sig.visibility), u.codeBlock(f.body.inner),
      u.fnArgs(sig.arguments.inner), u.fnSpan(f),
      match sig.returnTypeOpt
      case Some((_, ty)) => u.typeInfo(ty)
      case None => Tuple([]),
      TypeParametersOf(sig.generics), returnTypeSpan)
  }

  /** Each function item converted, in order. */
  function FnDecls(fs: seq<ItemFn>, u: Helpers): (r: seq<FunctionDeclaration>)
    ensures |r| == |fs| && forall i :: 0 <= i < |r| ==> r[i] == FnDeclOf(fs[i], u)
  {
    seq(|fs|, i requires 0 <= i < |fs| => FnDeclOf(fs[i], u))
  }

  /** The optional block of default methods, flattened: nothing when it is absent. */
  function MethodsOf(defs: Option<Bracketed<seq<ItemFn>>>, u: Helpers): (r: seq<FunctionDeclaration>)
    ensures defs.None? ==> r == []
    ensures defs.Some? ==> r == FnDecls(defs.value.inner, u)
  {
    match defs
    case None => []
    case Some(b) => FnDecls(b.inner, u)
  }

  /** `fn_signature_to_trait_fn` over each `signature;` of a block, dropping the semicolons. */
  function TraitFns(items: seq<(FnSignature, Token)>, u: Helpers): (r: seq<TraitFn>)
    ensures |r| == |items| && forall i :: 0 <= i < |r| ==> r[i] == u.traitFn(items[i].0)
  {
    seq(|items|, i requires 0 <= i < |items| => u.traitFn(items[i].0))
  }

  // ----------------------------------------------------------------- traits

  /** `item_trait_to_trait_declaration`. */
  function TraitDeclOf(t: ItemTrait, u: Helpers): (d: TraitDeclaration)
    ensures d.name == t.name
    ensures d.interfaceSurface == TraitFns(t.traitItems.inner, u)
    ensures t.traitDefsOpt.None? ==> d.methods == []
    ensures t.traitDefsOpt.Some? ==>
              && |d.methods| == |t.traitDefsOpt.value.inner|
              && forall i :: 0 <= i < |d.methods| ==> d.methods[i] == FnDeclOf(t.traitDefsOpt.value.inner[i], u)
    ensures d.typeParameters == []
    ensures t.superTraits.None? ==> d.supertraits == []
    ensures t.superTraits.Some? ==> d.supertraits == u.supertraits(t.superTraits.value.1)
    ensures d.visibility == Public <==> t.visibility.Some?
  {
    TraitDeclaration(
      t.name, TraitFns(t.traitItems.inner, u), MethodsOf(t.traitDefsOpt, u), [],
      match t.superTraits
      case Some((_, traits)) => u.supertraits(traits)
      case None => [],
      VisibilityOf(t.visibility))
  }

  // ------------------------------------------------------------------ impls

  /** The functions of an impl declaration, whichever of the two kinds it is. */
  function ImplFunctions(d: Declaration): seq<FunctionDeclaration>
  {
    match d
    case ImplTraitDecl(x) => x.functions
    case ImplSelfDecl(x) => x.functions
    case _ => []
  }

  /**
    `item_impl_to_declaration`: `impl Trait for Ty` becomes `ImplTrait` and
    `impl Ty` becomes `ImplSelf`; both carry the converted functions, the
    impl's span as block span, no type arguments, and the type's span as the
    span of the (absent) type arguments.
   */
  function ImplDeclOf(i: ItemImpl, u: Helpers): (d: Declaration)
    ensures d.ImplTraitDecl? <==> i.traitOpt.Some?
    ensures d.ImplSelfDecl? <==> i.traitOpt.None?
    ensures ImplFunctions(d) == FnDecls(i.contents.inner, u)
    ensures d.ImplTraitDecl? ==>
              && d.implTrait.traitName == u.callPath(i.traitOpt.value.0)
              && d.implTrait.typeImplementingFor == u.typeInfo(i.ty)
              && d.implTrait.typeImplementingForSpan == i.ty.span
              && d.implTrait.typeArguments == []
              && d.implTrait.blockSpan == u.implSpan(i)
              && d.implTrait.typeArgumentsSpan == i.ty.span
    ensures d.ImplSelfDecl? ==>
              && d.implSelf.typeImplementingFor == u.typeInfo(i.ty)
              && d.implSelf.typeArguments == []
              && d.implSelf.blockSpan == u.implSpan(i)
              && d.implSelf.typeArgumentsSpan == i.ty.span
              && d.implSelf.typeNameSpan == i.ty.span
  {
    var functions := FnDecls(i.contents.inner, u);
    match i.traitOpt
    case Some((pathType, _)) =>
      ImplTraitDecl(ImplTrait(u.callPath(pathType), u.typeInfo(i.ty), i.ty.span, [], functions,
                              u.implSpan(i), i.ty.span))
    case None =>
      ImplSelfDecl(ImplSelf(u.typeInfo(i.ty), [], functions, u.implSpan(i), i.ty.span, i.ty.span))
  }

  /** Naming a trait changes the kind of declaration but not its functions. */
  lemma ImplFunctionsIgnoreTrait(i: ItemImpl, path: PathType, forToken: Token, u: Helpers)
    requires u.implSpan(i) == u.implSpan(i.(traitOpt := Some((path, forToken))))
    ensures var withTrait := ImplDeclOf(i.(traitOpt := Some((path, forToken))), u);
            var withoutTrait := ImplDeclOf(i.(traitOpt := None), u);
            && withTrait.ImplTraitDecl? && withoutTrait.ImplSelfDecl?
            && ImplFunctions(withTrait) == ImplFunctions(withoutTrait)
            && withTrait.implTrait.typeImplementingFor == withoutTrait.implSelf.typeImplementingFor
  {
  }

  // ------------------------------------------------ abi, const and storage

  /** `item_abi_to_abi_declaration`. */
  function AbiDeclOf(a: ItemAbi, u: Helpers): (d: AbiDeclaration)
    ensures d.name == a.name && d.span == u.abiSpan(a)
    ensures d.interfaceSurface == TraitFns(a.abiItems.inner, u)
    ensures a.abiDefsOpt.None? ==> d.methods == []
    ensures a.abiDefsOpt.Some? ==>
              && |d.methods| == |a.abiDefsOpt.value.inner|
              && forall i :: 0 <= i < |d.methods| ==> d.methods[i] == FnDeclOf(a.abiDefsOpt.value.inner[i], u)
  {
    AbiDeclaration(a.name, TraitFns(a.abiItems.inner, u), MethodsOf(a.abiDefsOpt, u), u.abiSpan(a))
  }

  /** `item_const_to_constant_declaration`: no ascription gives `Unknown`. */
  function ConstDeclOf(c: ItemConst, u: Helpers): (d: ConstantDeclaration)
    ensures d.name == c.name && d.value == u.expression(c.expr)
    ensures c.tyOpt.None? ==> d.typeAscription == Unknown
    ensures c.tyOpt.Some? ==> d.typeAscription == u.typeInfo(c.tyOpt.value.1)
    ensures d.visibility == Public <==> c.visibility.Some?
  {
    ConstantDeclaration(
      c.name,
      match c.tyOpt
      case Some((_, ty)) => u.typeInfo(ty)
      case None => Unknown,
      u.expression(c.expr), VisibilityOf(c.visibility))
  }

  /** `item_storage_to_storage_declaration`: one converted field per declared field, in order. */
  function StorageDeclOf(s: ItemStorage, u: Helpers): (d: StorageDeclaration)
    ensures d.span == u.storageSpan(s)
    ensures |d.fields| == |Values(s.fields.inner)|
    ensures forall i :: 0 <= i < |d.fields| ==> d.fields[i] == u.storageField(Values(s.fields.inner)[i])
  {
    var fs := Values(s.fields.inner);
    StorageDeclaration(u.storageSpan(s), seq(|fs|, i requires 0 <= i < |fs| => u.storageField(fs[i])))
  }

  // ------------------------------------------------- agreement between maps

  /**
    A struct and an enum declaring the same fields convert them alike: field
    `i` of the struct and variant `i` of the enum have the same name, type and
    span, and the variant is tagged `i`.
   */
  lemma StructAndEnumAgree(s: ItemStruct, e: ItemEnum, u: Helpers)
    requires SameSource(e)
    requires Values(s.fields.inner) == Values(e.fields.inner)
    ensures var fs := StructDeclOf(s, u).fields;
            var vs := EnumDeclOf(e, u).variants;
            && |fs| == |vs|
            && forall i :: 0 <= i < |fs| ==>
                 && fs[i].name == vs[i].name && fs[i].fieldType == vs[i].variantType
                 && fs[i].span == vs[i].span && vs[i].tag == i
  {
  }

  /** A trait and an abi with the same signatures and default methods have the same surface and methods. */
  lemma TraitAndAbiAgree(t: ItemTrait, a: ItemAbi, u: Helpers)
    requires t.traitItems.inner == a.abiItems.inner
    requires t.traitDefsOpt.None? <==> a.abiDefsOpt.None?
    requires t.traitDefsOpt.Some? ==> t.traitDefsOpt.value.inner == a.abiDefsOpt.value.inner
    ensures TraitDeclOf(t, u).interfaceSurface == AbiDeclOf(a, u).interfaceSurface
    ensures TraitDeclOf(t, u).methods == AbiDeclOf(a, u).methods
  {
  }

  /**
    A function item converts to the same declaration wherever it appears: as
    an item of the program, as a trait's or an abi's default method, and as a
    function of an impl.
   */
  lemma FnConvertsAlike(f: ItemFn, u: Helpers, t: ItemTrait, a: ItemAbi, im: ItemImpl, i: nat)
    ensures var n := ItemToAstNode(Fn(f), u);
            n.content.Declaration? && n.content.declaration.FunctionDecl?
    ensures var d := ItemToAstNode(Fn(f), u).content.declaration.fnDecl;
            && (t.traitDefsOpt.Some? && i < |t.traitDefsOpt.value.inner| && t.traitDefsOpt.value.inner[i] == f ==>
                  TraitDeclOf(t, u).methods[i] == d)
            && (a.abiDefsOpt.Some? && i < |a.abiDefsOpt.value.inner| && a.abiDefsOpt.value.inner[i] == f ==>
                  AbiDeclOf(a, u).methods[i] == d)
            && (i < |im.contents.inner| && im.contents.inner[i] == f ==>
                  ImplFunctions(ImplDeclOf(im, u))[i] == d)
  {
  }

  // ------------------------------------------------------------- the tree

  /** The spans of an enum item can be joined, as `ItemEnum::span` needs. */
  predicate Convertible(item: Item)
  {
    item.Enum? ==> SameSource(item.itemEnum)
  }

  /**
    What each kind of item must become: a `use` is carried over as is, an
    impl becomes `ImplTrait` or `ImplSelf` as a trait is named or not, and
    every other item becomes the declaration of its own kind, built by that
    kind's conversion.
   */
  predicate Corresponds(item: Item, c: AstNodeContent, u: Helpers)
    requires Convertible(item)
  {
    match item
    case Use(x) => c == UseStatement(x)
    case Struct(x) => c == Declaration(StructDecl(StructDeclOf(x, u)))
    case Enum(x) => c == Declaration(EnumDecl(EnumDeclOf(x, u)))
    case Fn(x) => c == Declaration(FunctionDecl(FnDeclOf(x, u)))
    case Trait(x) => c == Declaration(TraitDecl(TraitDeclOf(x, u)))
    case Impl(x) =>
      && c == Declaration(ImplDeclOf(x, u))
      && (if x.traitOpt.Some? then c.declaration.ImplTraitDecl? else c.declaration.ImplSelfDecl?)
    case Abi(x) => c == Declaration(AbiDecl(AbiDeclOf(x, u)))
    case Const(x) => c == Declaration(ConstantDecl(ConstDeclOf(x, u)))
    case Storage(x) => c == Declaration(StorageDecl(StorageDeclOf(x, u)))
  }

  /** `item_to_ast_node`: the item's own span and the conversion of its kind. */
  function ItemToAstNode(item: Item, u: Helpers): (n: AstNode)
    requires Convertible(item)
    ensures n.span == u.itemSpan(item)
    ensures Corresponds(item, n.content, u)
    ensures item.Use? <==> n.content.UseStatement?
  {
    var content := match item
      case Use(x) => UseStatement(x)
      case Struct(x) => Declaration(StructDecl(StructDeclOf(x, u)))
      case Enum(x) => Declaration(EnumDecl(EnumDeclOf(x, u)))
      case Fn(x) => Declaration(FunctionDecl(FnDeclOf(x, u)))
      case Trait(x) => Declaration(TraitDecl(TraitDeclOf(x, u)))
      case Impl(x) => Declaration(ImplDeclOf(x, u))
      case Abi(x) => Declaration(AbiDecl(AbiDeclOf(x, u)))
      case Const(x) => Declaration(ConstantDecl(ConstDeclOf(x, u)))
      case Storage(x) => Declaration(StorageDecl(StorageDeclOf(x, u)));
    AstNode(u.itemSpan(item), content)
  }

  function RootNodes(items: seq<Item>, u: Helpers): (r: seq<AstNode>)
    requires forall i :: 0 <= i < |items| ==> Convertible(items[i])
    ensures |r| == |items|
    ensures forall i :: 0 <= i < |r| ==> r[i] == ItemToAstNode(items[i], u)
  {
    seq(|items|, i requires 0 <= i < |items| => ItemToAstNode(items[i], u))
  }

  /**
    `convert`: the tree type from the program kind, the program's span, and
    one root node per item, in item order.
   */
  function ConvertProgram(program: Program, u: Helpers): (t: SwayParseTree)
    requires forall i :: 0 <= i < |program.items| ==> Convertible(program.items[i])
    ensures KindOf(t.treeType) == program.kind
    ensures t.tree.span == u.programSpan(program)
    ensures |t.tree.rootNodes| == |program.items|
    ensures forall i :: 0 <= i < |program.items| ==>
              && t.tree.rootNodes[i].span == u.itemSpan(program.items[i])
              && Corresponds(program.items[i], t.tree.rootNodes[i].content, u)
  {
    TreeTypeIsBijective(program.kind, TreeTypeOf(program.kind));
    SwayParseTree(TreeTypeOf(program.kind), ParseTree(u.programSpan(program), RootNodes(program.items, u)))
  }

  /**
    The conversion is item by item: the root nodes of a program whose items
    are `a + b` are the root nodes of `a` followed by those of `b`.
   */
  lemma RootNodesDistribute(a: seq<Item>, b: seq<Item>, u: Helpers)
    requires forall i :: 0 <= i < |a| ==> Convertible(a[i])
    requires forall i :: 0 <= i < |b| ==> Convertible(b[i])
    ensures forall i :: 0 <= i < |a + b| ==> Convertible((a + b)[i])
    ensures RootNodes(a + b, u) == RootNodes(a, u) + RootNodes(b, u)
  {
    ConvertibleConcat(a, b);
    var ab := a + b;
    var l := RootNodes(ab, u);
    var la := RootNodes(a, u);
    var lb := RootNodes(b, u);
    forall i | 0 <= i < |a| ensures l[i] == la[i] {
      assert ab[i] == a[i];
    }
    forall i | 0 <= i < |b| ensures l[|a| + i] == lb[i] {
      assert ab[|a| + i] == b[i];
    }
    ConcatPointwise(l, la, lb);
  }

  /** A sequence that agrees with `x` and then with `y`, index by index, is `x + y`. */
  lemma ConcatPointwise<T>(l: seq<T>, x: seq<T>, y: seq<T>)
    requires |l| == |x| + |y|
    requires forall i :: 0 <= i < |x| ==> l[i] == x[i]
    requires forall i :: 0 <= i < |y| ==> l[|x| + i] == y[i]
    ensures l == x + y
  {
    forall i | 0 <= i < |l| ensures l[i] == (x + y)[i] {
      if i >= |x| {
        assert l[|x| + (i - |x|)] == y[i - |x|];
      }
    }
  }

  /** Items that each convert still each convert once concatenated. */
  lemma ConvertibleConcat(a: seq<Item>, b: seq<Item>)
    requires forall i :: 0 <= i < |a| ==> Convertible(a[i])
    requires forall i :: 0 <= i < |b| ==> Convertible(b[i])
    ensures forall i :: 0 <= i < |a + b| ==> Convertible((a + b)[i])
  {
    var ab := a + b;
    forall i | 0 <= i < |ab| ensures Convertible(ab[i]) {
      if i < |a| { assert ab[i] == a[i]; } else { assert ab[i] == b[i - |a|]; }
    }
  }

}

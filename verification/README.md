# Sway's new parser front end, modelled in Dafny

This project models the recursive-descent front end of the Sway compiler
(`new-parser-again`) and the two pure helpers around it: span arithmetic
(`sway-types/src/span.rs`) and the conversion of a parsed program into the
compiler's older parse tree (`sway-core/src/convert_parse_tree.rs`, with the
bridge in `sway-core/src/new_parser_compat.rs`).

Parsing is functional. A `Parsing.Parser` holds three things: the token trees
still to be read in the current scope, the span of that scope, and the
append-only log of diagnostics. Every parse function returns either
`Ok(value, parser)` or `Err(log)`. The failure log always extends the log the
parse started with, and a success consumed a prefix of the tokens. The
step predicates `Steps`, `Advances` and `Finishes` state exactly this, and
every parser in the model proves one of them.

The parsers of nodes defined outside the modelled files (types, expressions,
generics, function signatures, fields, asm instructions, `Vec` bodies) are
function parameters. Each is constrained only by `Productive` (each success
consumes a token, each failure logs a diagnostic) or `ToEnd` (a success
consumes the whole scope), except `parse_instruction`, which is only required
to step (`Steps`): it may succeed without consuming anything. One-token
instances (`Nodes.IdentTy`, `Nodes.IdentExpr`, `AsmExprs.Opcode`) state the
round trips.

Modules, one per source file:

| module | file | source |
|---|---|---|
| `Spans` | spans.dfy | `sway-types/src/span.rs` |
| `Parsing` | parsing.dfy | the parser primitives the grammar code uses |
| `Idents` | idents.dfy | `new-parser-again/src/ident.rs` |
| `Punctuation` | punctuated.dfy | `new-parser-again/src/punctuated.rs` |
| `Brackets` | brackets.dfy | `new-parser-again/src/brackets.rs` |
| `Nodes` | nodes.dfy | stand-ins for nodes whose source is not part of this model |
| `AsmExprs` | asm.dfy | `new-parser-again/src/expr/asm.rs` |
| `ItemHeads` | item_head.dfy | the `[pub] keyword Name` opening of `item_trait.rs` / `item_enum.rs` |
| `ItemFns`, `ItemTraits`, `ItemEnums` | item_fn.dfy, item_trait.dfy, item_enum.dfy | `new-parser-again/src/item/` |
| `Compat` | compat.dfy | `sway-core/src/new_parser_compat.rs` |
| `Programs`, `ParseTrees`, `Convert` | program.dfy, parse_tree.dfy, convert.dfy | `sway-core/src/convert_parse_tree.rs` |

## Model

| member | source | states |
|---|---|---|
| Spans.New | sway-types/src/span.rs:29-34 | construction fails exactly when `start <= end <= len(src)` does not hold; otherwise the accessors return exactly the arguments |
| Spans.NewRoundTrip | sway-types/src/span.rs:45-59 | every span is rebuilt by `new` from its own `src`, `start`, `end` and `path` |
| Spans.AsStr | sway-types/src/span.rs:81-83 | the text of a span has length `end - start` |
| Spans.LeadingWs | sway-types/src/span.rs:99 | the count is the length of the longest all-whitespace prefix: those characters are whitespace and the next one is not |
| Spans.TrailingWs | sway-types/src/span.rs:100 | the count is the length of the longest all-whitespace suffix |
| Spans.Trim | sway-types/src/span.rs:98-111 | panics (None) exactly for a non-empty all-whitespace text; otherwise start moves forward by the leading whitespace, end moves back by the trailing whitespace, src and path are kept, and the new text has no whitespace at either end |
| Spans.TrimIdempotent | sway-types/src/span.rs:98-111 | trimming a trimmed span gives the same span |
| Spans.JoinSpans | sway-types/src/span.rs:116-138 | a first span reading `core` returns the second unchanged; otherwise different texts or paths panic (None); otherwise the result runs from `s1.start` to `s2.end` when `s1.start < s2.end`, else from `s2.start` to `s1.end`, with `s1`'s path |
| Spans.JoinDisjointIsCover | sway-types/src/span.rs:114-138 | for spans of one file that do not overlap, in either order, the join is the smallest span covering both |
| Spans.JoinDisjointSymmetric | sway-types/src/span.rs:114-138 | for non-overlapping spans the join does not depend on argument order |
| Spans.JoinNestedIsNotUnion | sway-types/src/span.rs:125-131 | a nested pair shows the join is not a union: `[0,5)` joined with `[1,2)` is `[0,2)`, which does not cover the first span |
| Spans.Cover | new-parser-again/src/brackets.rs:122-124 | the join used by the new parser covers both spans, and each end comes from one of them |
| Parsing.ParseToken | new-parser-again/src/item/item_trait.rs:22 | a keyword or punctuation token parses exactly when it comes next and consumes only it; otherwise a diagnostic is logged |
| Idents.Text | new-parser-again/src/ident.rs:13-15 | an ident's text is as long as its span |
| Idents.PeekIdent | new-parser-again/src/ident.rs:22-26 | peeking yields an ident exactly when one comes next, with that token's span |
| Idents.ParseIdent | new-parser-again/src/ident.rs:28-35 | succeeds exactly when an identifier comes next and then consumes exactly that token; otherwise logs "expected an identifier" at the next token |
| Idents.PeekAgreesWithParse | new-parser-again/src/ident.rs:22-35 | peeking names the very ident that parsing consumes, and succeeds exactly when parsing does |
| Idents.IdentEqualityIsPositional | new-parser-again/src/ident.rs:3-6 | idents are equal exactly when their spans are |
| Idents.SameTextDifferentIdents | new-parser-again/src/ident.rs:3-6 | the two `x` in `x x` have the same text and are different idents |
| Punctuation.ParseLoop | new-parser-again/src/punctuated.rs:16-34 | a success consumed the whole scope, kept the pairs already read as a prefix, and on non-empty input added a pair or a final value |
| Punctuation.ParseToEnd | new-parser-again/src/punctuated.rs:14-35 | an empty scope gives no pairs and no final value; success consumes the whole scope; non-empty input never yields an empty list |
| Punctuation.FailureIsNotPartial | new-parser-again/src/punctuated.rs:24-32 | a failing value or separator fails the whole list with that failure's log |
| Punctuation.LoopSuccessInversion | new-parser-again/src/punctuated.rs:24-33 | a successful list read its first value and, unless that value ended the scope, a separator after it |
| Punctuation.ParseRenderRoundTrip | new-parser-again/src/punctuated.rs:14-35 | reading back the token trees of any ident/comma list gives that list, with or without a trailing comma |
| Punctuation.ParsedListRendersInput | new-parser-again/src/punctuated.rs:14-35 | a parsed ident/comma list renders back to exactly the scope it was read from |
| Punctuation.FourShapes | new-parser-again/src/punctuated.rs:17-33 | `a,b,` has two pairs and no final value, and `a,b` has one pair and final value `b` |
| Punctuation.Values | new-parser-again/src/punctuated.rs:57-77 | the iterated values number `pairs + (1 if a final value)` |
| Punctuation.Next | new-parser-again/src/punctuated.rs:57-77 | `next` yields the value at the iterator's index exactly when the index is within the values, and then advances by one; otherwise it yields nothing and leaves the iterator unchanged |
| Punctuation.NextIsFused | new-parser-again/src/punctuated.rs:58-69 | once `next` has returned nothing it keeps returning nothing |
| Punctuation.CollectValues | new-parser-again/src/punctuated.rs:57-77 | iterating from index 0 until nothing is returned yields the pair values in order and then the final value |
| Brackets.AccessorsReturnStored | new-parser-again/src/brackets.rs:19-29 | `get`/`into_inner` and `span` return exactly what was stored |
| Brackets.TryParse | new-parser-again/src/brackets.rs:36-44 | no opening delimiter gives `Ok(None)` with nothing consumed or logged; otherwise the wrapper holds the interior read to its end and the group's span, the parent moves past the group carrying the interior's log, and a failing interior fails the whole parse |
| Brackets.Parse | new-parser-again/src/brackets.rs:93-101 | succeeds exactly when the delimiter opens the scope and the interior reads to its end; a missing delimiter logs the kind's own message, a failing interior fails with its log; a success holds the interior value and the group's span and moves past exactly the group, carrying the interior's log |
| Brackets.TryParseAgreesWithParse | new-parser-again/src/brackets.rs:36-44 | where the delimiter is present, `try_parse` is `Parse` wrapped in `Some`; where it is absent, `try_parse` returns `Ok(None)` while `Parse` fails |
| Brackets.ParseAllInner | new-parser-again/src/brackets.rs:51-65 | a missing delimiter logs the kind's message; a failing interior value fails with its own log; leftover interior tokens fail through `on_error`; accepted exactly when the delimiter is present, the value parses and the interior is used up, and then holds that value with the group's span and moves past the group with the interior's log |
| Brackets.TryParseAllInner | new-parser-again/src/brackets.rs:72-86 | an absent delimiter gives `Ok(None)` with nothing consumed; with the delimiter present, a failing value fails with its log, leftover tokens fail through `on_error`, and otherwise the value is wrapped in `Some` with the group's span and the parser moves past the group |
| Brackets.TryParseAllInnerAgrees | new-parser-again/src/brackets.rs:76-85 | with the delimiter present, `try_parse_all_inner` behaves exactly like `parse_all_inner` |
| Brackets.AngleSpan | new-parser-again/src/brackets.rs:122-124 | the span of `<...>` covers both angle tokens and, for `<` before `>`, runs from `<` to `>` |
| AsmExprs.ParseRegisterDeclaration | new-parser-again/src/expr/asm.rs:43-55 | no identifier first logs "expected an identifier"; a register not followed by a colon is uninitialised and only its name is consumed; after a colon the initializer is the expression parsed there, a failing expression fails the declaration with its log, and parsing resumes after the expression |
| AsmExprs.RegisterRoundTrip | new-parser-again/src/expr/asm.rs:43-55 | every declaration `r` or `r: e` (one-token `e`) is read back from its tokens, stopping right after them; `r` alone needs no colon after it |
| AsmExprs.ParseRegisters | new-parser-again/src/expr/asm.rs:37 | the declarations are read to the end of the parentheses; empty parentheses give no declarations and log nothing; non-empty ones never give the empty list |
| AsmExprs.ContentsLoop | new-parser-again/src/expr/asm.rs:57-93 | a success consumed the whole brace interior and kept the instructions already read as a prefix |
| AsmExprs.ParseContents | new-parser-again/src/expr/asm.rs:61-62 | an empty body has no instructions and no final expression |
| AsmExprs.UntypedFinalRegister | new-parser-again/src/expr/asm.rs:64-71 | an ident followed by the end of the body is an untyped final register |
| AsmExprs.TypedFinalRegister | new-parser-again/src/expr/asm.rs:72-85 | `r: Ty` must end the body; anything after the type fails with "unexpected tokens after final expression in asm block" and is never read as an instruction |
| AsmExprs.InstructionTurn | new-parser-again/src/expr/asm.rs:86-88 | an ident not followed by a colon opens an instruction, a semicolon must follow it, and the pair is appended before the loop goes on |
| AsmExprs.OneInstructionThenFinalRegister | new-parser-again/src/expr/asm.rs:57-93 | `op ...; r` gives one instruction, an untyped final register `r`, and consumes every token |
| AsmExprs.InstructionsRoundTrip | new-parser-again/src/expr/asm.rs:57-93 | for opcodes without operands, the tokens `op; ...; op;` followed by a final register are read back as those instructions, appended in order after the ones already read, then that final register, with the interior consumed |
| AsmExprs.ContentsRoundTrip | new-parser-again/src/expr/asm.rs:57-93 | every body of operand-free instructions and an optional final register `r` or `r: T` is read back from its tokens as exactly that body |
| AsmExprs.ParseAsmBlock | new-parser-again/src/expr/asm.rs:34-41 | `asm`, the parentheses and the braces are required in that order and each missing one logs its own message; the block is accepted exactly when the registers read the whole parentheses and the body reads the whole braces, and then holds exactly those values with each group's span |
| AsmExprs.AsmBlockAccepted | new-parser-again/src/expr/asm.rs:34-41 | `asm(registers) { body }` is accepted whenever its registers parse, and holds those registers and exactly the written body of operand-free instructions |
| AsmExprs.DecimalRoundTrip | new-parser-again/src/expr/asm.rs:140-143 | the value of the decimal spelling of any natural number is that number |
| AsmExprs.ParseBigUint | new-parser-again/src/expr/asm.rs:140 | parsing the digits succeeds exactly for a non-empty string of decimal digits |
| AsmExprs.ParseImmediate | new-parser-again/src/expr/asm.rs:133-149 | succeeds exactly for an ident `i` followed by decimal digits, with the ident's span and the digits' value; no `i` logs "immediate values must start with 'i'"; bad digits log "unable to parse immediate value" |
| AsmExprs.ImmediateRoundTrip | new-parser-again/src/expr/asm.rs:133-149 | every natural number is read back from its `i`-prefixed decimal spelling |
| AsmExprs.ImmediateExamples | new-parser-again/src/expr/asm.rs:136-143 | `i42` is 42; `42` lacks the prefix; `ix` and a bare `i` have no value |
| ItemHeads.ParseItemHead | new-parser-again/src/item/item_trait.rs:21-23 | `pub` is optional and taken silently; accepted exactly when the keyword and an identifier follow it; a missing keyword logs "expected `kw`" at its position, a missing name logs "expected an identifier" after the keyword; exactly those tokens are consumed |
| ItemHeads.HeadRoundTrip | new-parser-again/src/item/item_trait.rs:21-23 | every well-formed `[pub] kw Name` is read back from its tokens as itself, stopping right after the name |
| ItemHeads.ParsedHeadRendersInput | new-parser-again/src/item/item_trait.rs:21-23 | conversely, a parsed head is well formed and its tokens are exactly the ones it consumed |
| ItemFns.ParseItemFn | new-parser-again/src/item/item_fn.rs:9-15 | a failing signature fails the item with its own log, and the body is not tried; a missing brace group logs "expected an opening brace" and a failing block fails with the block's log; accepted exactly when the signature parses and the block reads the whole brace group after it, and then holds both and moves past the group with the block's log |
| ItemTraits.Suffixes | new-parser-again/src/item/item_trait.rs:41-48 | without a `+` the loop stops where it is; a `+` not followed by a parsable type fails the whole list with that type's log; otherwise the `+ Ty` pair is appended and the loop goes on after the type |
| ItemTraits.ParseTraits | new-parser-again/src/item/item_trait.rs:37-52 | a failing first type fails the list; otherwise the list is that type and the `+ Ty` pairs read after it, a failing pair fails it, and a success never leaves a `+` next |
| ItemTraits.TraitsRoundTrip | new-parser-again/src/item/item_trait.rs:37-52 | reading back a rendered `A + B + ...` list gives that list and stops right after it |
| ItemTraits.ParseSuperTraits | new-parser-again/src/item/item_trait.rs:24-30 | without a colon there are no super-traits and nothing is consumed; after a colon the super-traits are the list parsed there, and a failing list fails with its log |
| ItemTraits.TraitBraces | new-parser-again/src/item/item_trait.rs:31-32 | the signatures' brace group is required (missing: "expected an opening brace"; failing interior: its log); a second brace group is read as default methods exactly when one follows, and nothing more is consumed without one; accepted exactly when each present group's interior parses, with each group's value and span |
| ItemTraits.ParseTraitBody | new-parser-again/src/item/item_trait.rs:24-32 | failing super-traits fail the trait with their log; otherwise the brace groups are read right where the super-traits end, and on success super-traits are present exactly when the first token is a colon |
| ItemTraits.BodyPositions | new-parser-again/src/item/item_trait.rs:24-32 | after a successful body parse, super-traits are present exactly when a colon came first, and no default methods means no brace group is left |
| ItemTraits.ParseItemTrait | new-parser-again/src/item/item_trait.rs:19-35 | a failing head fails the trait with its log; otherwise the trait is accepted exactly when the body is, and is assembled from the head's and the body's values |
| ItemTraits.TraitHeadPositions | new-parser-again/src/item/item_trait.rs:20-23 | in a parsed trait, `pub` is present exactly when it comes first, and `trait` and the name sit at the next two positions |
| ItemTraits.TraitTailPositions | new-parser-again/src/item/item_trait.rs:24-32 | in a parsed trait, super-traits are present exactly when a colon follows the name, and no default methods means no brace group follows |
| ItemTraits.MissingTraitKeyword | new-parser-again/src/item/item_trait.rs:21-22 | with no `pub` and no `trait` first, the parse logs "expected `trait`" and fails |
| ItemTraits.TraitAccepted | new-parser-again/src/item/item_trait.rs:19-35 | a well-formed `[pub] trait Name { ... }` not followed by braces is accepted whenever its signatures parse, with no super-traits, those signatures and no default methods |
| ItemTraits.MissingSignatureBraces | new-parser-again/src/item/item_trait.rs:31 | after a well-formed head and no colon, anything but a brace group fails with "expected an opening brace" at that token |
| ItemEnums.EnumSpan | new-parser-again/src/item/item_enum.rs:12-21 | the enum's span covers the `pub` (else `enum`) token and the variants' braces, and runs from one to the other when they are in order |
| ItemEnums.ParseGenericsOpt | new-parser-again/src/item/item_enum.rs:28-32 | generics are parsed only when `<` comes next; otherwise they are absent and nothing is consumed |
| ItemEnums.EnumBraces | new-parser-again/src/item/item_enum.rs:33 | the variants' brace group is required (missing: "expected an opening brace"; failing list: its log); accepted exactly when the comma-separated variant list reads the whole interior, and then holds that list with the group's span and moves past the group |
| ItemEnums.ParseEnumBody | new-parser-again/src/item/item_enum.rs:28-33 | failing generics fail the enum with their log; otherwise the braces are read right where the generics end; on success generics are present exactly when `<` came first, and the brace group is the last token consumed |
| ItemEnums.ParseItemEnum | new-parser-again/src/item/item_enum.rs:23-36 | a failing head fails the enum with its log; otherwise the enum is accepted exactly when the body is, and is assembled from the head's and the body's values |
| ItemEnums.EnumPositions | new-parser-again/src/item/item_enum.rs:23-36 | in a parsed enum, `pub` is present exactly when it comes first, `enum` and the name sit at the next two positions, generics are present exactly when `<` follows the name, and the variants' brace group is the last token consumed |
| ItemEnums.ParsedEnumSpan | new-parser-again/src/item/item_enum.rs:12-21 | for tokens in source order, a parsed enum's span runs from its first token to the end of its brace group |
| ItemEnums.EnumAccepted | new-parser-again/src/item/item_enum.rs:23-36 | a well-formed `[pub] enum Name { ... }` is accepted whenever its variants parse, with no generics and that variant list with the braces' span |
| Compat.SpanFrom | sway-core/src/new_parser_compat.rs:7-17 | the same text, start and end with no path; the `unwrap` cannot fail |
| Compat.IdentFrom | sway-core/src/new_parser_compat.rs:1-5 | the ident's span is `span_from` of the original and its text is unchanged |
| Compat.SpanFromIdempotent | sway-core/src/new_parser_compat.rs:7-17 | converting twice changes nothing more; a span without a path converts to itself |
| Compat.IdentFromInjectiveUpToPath | sway-core/src/new_parser_compat.rs:1-17 | two idents convert to the same ident exactly when they cover the same range of the same text |
| Convert.TreeTypeOf | sway-core/src/convert_parse_tree.rs:26-31 | each program kind maps to its own tree type, and a library keeps its name |
| Convert.TreeTypeIsBijective | sway-core/src/convert_parse_tree.rs:26-31 | the kind mapping is a bijection whose inverse is `KindOf` |
| Convert.VisibilityOf | sway-core/src/convert_parse_tree.rs:271-276 | public exactly when a `pub` token is present |
| Convert.PurityOf | sway-core/src/convert_parse_tree.rs:288-293 | impure exactly when an `impure` token is present |
| Convert.ParamsFor | sway-core/src/convert_parse_tree.rs:259-268 | one type parameter per ident, in order, named `Custom(ident)`, with no trait constraints |
| Convert.TypeParametersOf | sway-core/src/convert_parse_tree.rs:254-269 | absent generics give no parameters; present ones give one per declared ident, in order |
| Convert.TypeParameterNamesRoundTrip | sway-core/src/convert_parse_tree.rs:254-269 | reading the names back off the type parameters gives the declared generics |
| Convert.StructDeclOf | sway-core/src/convert_parse_tree.rs:79-86 | one struct field per declared field, in order, with its name, converted type, span and type span; the type parameters of the declared generics; visibility as declared |
| Convert.VariantsFrom | sway-core/src/convert_parse_tree.rs:93-101 | each field becomes a variant tagged with its position, in order |
| Convert.EnumDeclOf | sway-core/src/convert_parse_tree.rs:88-105 | variant `i` is declared field `i` with its name, converted type and span, tagged `i`; the enum's own span; the type parameters of the declared generics; visibility as declared |
| Convert.EnumTagsAreIndices | sway-core/src/convert_parse_tree.rs:278-286 | the tags of an enum are exactly `0, 1, ..., n-1`, so no two variants share one |
| Convert.StructAndEnumAgree | sway-core/src/convert_parse_tree.rs:79-105 | a struct and an enum with the same fields convert them alike: same name, type and span at each position, the variant tagged with that position |
| Convert.FnDeclOf | sway-core/src/convert_parse_tree.rs:107-127 | purity, name and visibility from the signature; body and parameters converted; no return type gives the empty tuple at the signature's span, otherwise the type's conversion at the type's span; the type parameters of the signature's generics |
| Convert.TraitDeclOf | sway-core/src/convert_parse_tree.rs:129-157 | one trait fn per signature, in order; method `i` is the converted default method `i`, none without a default block; no super-traits gives an empty list; type parameters are always empty |
| Convert.ImplDeclOf | sway-core/src/convert_parse_tree.rs:159-197 | `impl Trait for Ty` becomes `ImplTrait` and `impl Ty` becomes `ImplSelf`, both with the converted functions, no type arguments and the type's span |
| Convert.ImplFunctionsIgnoreTrait | sway-core/src/convert_parse_tree.rs:164-196 | naming a trait changes the kind of declaration but not its functions or implementing type |
| Convert.AbiDeclOf | sway-core/src/convert_parse_tree.rs:199-221 | one trait fn per signature, in order; method `i` is the converted default method `i`, none without a default block; the abi's span |
| Convert.ConstDeclOf | sway-core/src/convert_parse_tree.rs:223-233 | a constant without a type ascription gets `Unknown` |
| Convert.TraitAndAbiAgree | sway-core/src/convert_parse_tree.rs:203-218 | a trait and an abi with the same signatures and default methods get the same surface and methods |
| Convert.FnConvertsAlike | sway-core/src/convert_parse_tree.rs:140-171 | a function converts to the same declaration as a program item, as a trait's or abi's default method, and as an impl function |
| Convert.StorageDeclOf | sway-core/src/convert_parse_tree.rs:235-241 | one converted field per declared field, in order |
| Convert.ItemToAstNode | sway-core/src/convert_parse_tree.rs:39-77 | each node has its item's span; a `use` is carried over as is and is the only item that is not a declaration; every other item becomes the declaration its kind's conversion builds, an impl as `ImplTrait` exactly when a trait is named |
| Convert.ConvertProgram | sway-core/src/convert_parse_tree.rs:23-37 | the tree type gives back the program kind; one root node per item, in order, each with its item's span and the content its kind's conversion builds |
| Convert.RootNodesDistribute | sway-core/src/convert_parse_tree.rs:34 | items are converted one by one: the nodes of `a + b` are those of `a` followed by those of `b` |

## Left out

- `parser.rs`, the lexer and the token definitions are not part of this model. The module `Parsing` states their behaviour as definitions: `take`, `peek`, `enter_delimited`, `check_empty` and `emit_error` as the grammar code uses them. `emit_error` records the message at the next token's span, or at the scope's span when the scope is empty.
- Parsing a keyword or punctuation token logs "expected `x`". That message text is an assumption, since the token definitions are outside the modelled files.
- The `Parse`/`ParseToEnd` implementations outside the modelled files are parameters of the parsers that call them: `Ty`, `Expr`, `GenericParams`, `FnSignature`, `TypeField`, `parse_instruction`, the `Vec<...>` bodies and `CodeBlockContents`. Only their step behaviour is assumed: `Productive` or `ToEnd`, and for `parse_instruction` only `Steps`.
- `new-parser-again/src/lib.rs` (`lex_and_parse`) is a wrapper over the lexer and is not modelled.
- `sway-core/src/asm_generation`, `forc/src/ops/forc_doc` and `sway-core/src/parse_tree/use_statement.rs` are outside the front end and are not modelled.
- Strings are sequences of single-byte characters: `pest::Span::new`'s UTF-8 boundary check is not modelled, and whitespace is ASCII whitespace only.
- AsmExprs.ParseBigUint: accepts only non-empty ASCII digit strings; any other syntax `BigUint::from_str` may accept is not modelled.
- Machine integers are unbounded; no `usize` arithmetic in the modelled code can overflow on in-bounds spans.
- The new parser's `Span::join` is outside the modelled files; it is modelled as `Spans.Cover`, the smallest span covering both, defined for spans of one text.
- Convert.EnumDeclOf: requires the enum's first token and its braces to come from one text, the case in which `Span::join` is modelled.
- Convert.ItemToAstNode: requires `Convert.Convertible`, which for an enum item is the same one-text requirement; every item parsed from one source text meets it.
- Convert.ConvertProgram: requires every item to be `Convert.Convertible`, so every enum item comes from one text, as in a program parsed from one source text.
- The derived ordering of `Ident` is not modelled, because the ordering of the new parser's span type is outside the modelled files. Equality is modelled.
- The `todo!()` helpers of `convert_parse_tree.rs` (lines 295-325) are the fields of `Convert.Helpers`, and so are the `span` methods of programs, items, functions, impls, abis and storage. Their definitions are not modelled. The properties hold for any helpers, while the source as written panics when it reaches one.
- The conversion iterates `Punctuated` fields by value; that iterator is taken to yield the same values, in the same order, as the by-reference iterator modelled in `Punctuation.Next`.
- The conversion moves the parser's idents into the declarations unchanged, as the source does; no `ident_from` is applied there.
- The structs, impls, abis, consts, storage and `use` items are not parsed in this model. Their datatypes hold only the fields the conversion reads.
- Program-kind tokens are dropped from `Programs.ProgramKind`, because the conversion does not read them.
- AsmExprs.ParseRegisters: no round trip is stated for a whole register list. The list loop is `Punctuation.ParseToEnd`, whose round trip is stated for ident lists, and each declaration's round trip is `AsmExprs.RegisterRoundTrip`.
- AsmExprs.ContentsRoundTrip: covers instructions without operands only, because `parse_instruction` is outside the modelled files.
- Commented-out code in `span.rs` and `asm.rs` is not modelled.

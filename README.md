# tser in Dafny

tser turns TypeScript type declarations into data types for other
languages. It has three stages:

1. **Parsing.** An interface becomes a struct. An enum becomes a string or
   integer enum. A type alias over object literals, tagged by a `type`
   field, becomes a union. The parser works on an already-built TypeScript
   syntax tree and produces a language-neutral IR (intermediate
   representation).
2. **Code generation.** The IR is written out as Rust (serde-derived
   structs and enums) or as Swift (`Codable` structs and raw-value enums).
3. **Block formatting.** The generators build the output text with a small
   indentation-aware block builder.

This project models the four crates that make up the core:
`tser_parser_ts`, `tser_ir`, `tser_codegen` and `tser_block`. It proves what
each operation returns, which inputs it rejects and at which source
position, and the round trips and layout facts the output format depends on.

Module layout:

| file | module | models |
|---|---|---|
| `wrappers.dfy` | `Wrappers` | `Option`, `Result`, and `collect` into `Result<Vec<_>, _>` |
| `syntax.dfy` | `Syntax`, `StructureErrors` | the subset of the TypeScript syntax tree the parser inspects; `StructureError` |
| `ir.dfy` | `Ir` | the IR: files, items, type declarations, type expressions |
| `type_expr.dfy` | `TypeExprParser` | `type_expr.rs` |
| `prop.dfy` | `PropParser` | `prop.rs` |
| `struct_parser.dfy`, `enum_parser.dfy`, `union_parser.dfy`, `type_decl.dfy` | `StructParser`, `EnumParser`, `UnionParser`, `TypeDeclParser` | `type_decl/` |
| `parser_lib.dfy` | `TsParser` | the parser crate's `lib.rs`: module items, source positions, error text |
| `numerals.dfy` | `Numerals` | decimal/hexadecimal digit strings, for `Display` of integers |
| `escape.dfy` | `Escape` | `str::escape_default` and the quoting both backends use |
| `block.dfy` | `Blocks` | `tser_block` |
| `codegen_views.dfy` | `CodeGenViews` | the codegen `Struct`, `Enum` and `EnumValueType` views |
| `rust_codegen.dfy`, `swift_codegen.dfy` | `RustCodeGen`, `SwiftCodeGen` | `rust.rs`, `swift.rs` |
| `codegen.dfy` | `CodeGen` | the codegen crate's `lib.rs`: IR to views, `type_expr_to_string`, `generate` |
| `type_syntax.dfy` | `TypeSyntax` | readers that invert the generated type text, for each backend |

Where the source changes state step by step, the model is imperative:
- `Blocks.BlockBuilder` is a class whose `Modify` appends to its `children`.
- `EmitStr` is a recursive method.
- `FromSourceSpan` and `ParseEnum` are loops.
- `ParseArm`, `TraverseVariants` and `ParseUnion` are loops and recursion
  over the union's arms.

Each of these is proved equal to a specification function. The properties
are proved about that function.

## Model

| member | source | states |
|---|---|---|
| Wrappers.Collect | crates/tser_parser_ts/src/lib.rs:21-25 | collecting results succeeds iff every element succeeds; the values are the elements' values in order; a failure is the first failing element's error |
| Wrappers.CollectAppend | crates/tser_parser_ts/src/lib.rs:21-25 | collecting a concatenation is collecting each part, stopping at the first part that fails |
| Wrappers.CollectAppendSuccess | crates/tser_parser_ts/src/lib.rs:21-25 | when both parts collect, the concatenation collects to the joined values |
| TypeExprParser.KeywordTypes | crates/tser_parser_ts/src/type_expr.rs:11-16 | `string`, `number` and `boolean` become the three primitives; any other keyword is rejected at its own span |
| TypeExprParser.ArrayTypes | crates/tser_parser_ts/src/type_expr.rs:17-20 | `T[]` is a non-nullable array of the parsed element; an element error propagates unchanged |
| TypeExprParser.TypeRefs | crates/tser_parser_ts/src/type_expr.rs:21-29 | a type reference with type arguments is rejected at the arguments; a plain identifier becomes `Identifier`; a qualified name is rejected at the name |
| TypeExprParser.OtherTypesRejected | crates/tser_parser_ts/src/type_expr.rs:30-33 | an intersection, object-literal, literal or any other unsupported type is rejected at its own span, by the kind parser and by the type parser alike |
| TypeExprParser.NullableEitherSide | crates/tser_parser_ts/src/type_expr.rs:50-66 | `T \| null` and `null \| T` parse alike, to the kind of `T` marked nullable |
| TypeExprParser.UnionShapeRejected | crates/tser_parser_ts/src/type_expr.rs:50-67 | a union that is not two members with one `null` is rejected at the union's span |
| TypeExprParser.NullOrNullRejected | crates/tser_parser_ts/src/type_expr.rs:54-61 | `null \| null` takes the second `null` as the type and rejects it at that span |
| TypeExprParser.NullableArmIsKindLevel | crates/tser_parser_ts/src/type_expr.rs:61 | the non-null arm is read at kind level: a parenthesised arm is rejected; an array arm is accepted |
| TypeExprParser.ParenthesesTransparent | crates/tser_parser_ts/src/type_expr.rs:70-72 | parentheses do not change the parsed type |
| TypeExprParser.NullableElementArray | crates/tser_parser_ts/src/type_expr.rs:132-144 | `(string \| null)[]` is a non-nullable array of nullable strings |
| TypeExprParser.NullableOnlyFromUnion | crates/tser_parser_ts/src/type_expr.rs:37-81 | a nullable result comes only from a two-member union with a `null`, possibly under parentheses |
| TypeExprParser.UnparseRoundTrip | crates/tser_parser_ts/src/type_expr.rs:37-81 | every IR type expression is the parse of some TypeScript type; the parser reaches all of the IR |
| TypeExprParser.UnparseKindRoundTrip | crates/tser_parser_ts/src/type_expr.rs:9-35 | every IR kind is the parse of some non-union, non-null TypeScript type |
| TypeExprParser.ParseKind | crates/tser_parser_ts/src/type_expr.rs:9-35 | `parse_ts_type_to_type_expr_kind`: keywords, arrays and type references, any other type rejected at its span; stated by `KeywordTypes`, `ArrayTypes`, `TypeRefs`, `OtherTypesRejected` and `UnparseKindRoundTrip` |
| TypeExprParser.ParseTypeExpr | crates/tser_parser_ts/src/type_expr.rs:37-81 | `parse_to_type_expr`: a two-member union with a `null` is nullable, parentheses are looked through, anything else is a non-nullable kind; stated by `NullableEitherSide`, `UnionShapeRejected`, `ParenthesesTransparent`, `NullableOnlyFromUnion` and `UnparseRoundTrip` |
| PropParser.ParseAsProp | crates/tser_parser_ts/src/prop.rs:26-53 | a member is a property iff it is a non-computed property signature with no parameters, no initialiser, a type annotation and an identifier key; the error is at the key or at the member |
| PropParser.FieldOfProp | crates/tser_parser_ts/src/prop.rs:15-24 | a field keeps the property's name and optionality and succeeds exactly when its type parses |
| PropParser.MemberToField | crates/tser_parser_ts/src/type_decl/struct_.rs:21-22 | `parse_as_prop` followed by `Field::try_from`, the first error winning; stated by `ParseAsProp`, `FieldOfProp` and `StructParser.StructSucceedsIff` |
| StructParser.TypeParamsRejected | crates/tser_parser_ts/src/type_decl/struct_.rs:9-11 | a generic interface is rejected at its type parameters |
| StructParser.ExtendsRejected | crates/tser_parser_ts/src/type_decl/struct_.rs:12-14 | an interface that extends another is rejected at its first heritage clause |
| StructParser.StructFields | crates/tser_parser_ts/src/type_decl/struct_.rs:15-24 | a parsed struct has the interface's name and one field per member, in order, with the member's name, type and optionality |
| StructParser.StructSucceedsIff | crates/tser_parser_ts/src/type_decl/struct_.rs:8-25 | parsing succeeds iff there are no type parameters, no heritage, and every member is a simple property with a parsable type |
| StructParser.FirstFailingMember | crates/tser_parser_ts/src/type_decl/struct_.rs:17-23 | the error reported is the first failing member's |
| StructParser.OptionalStringField | crates/tser_parser_ts/src/type_decl/struct_.rs:61-72 | `interface Hello { foo?: string }` gives one optional `String` field |
| StructParser.ParseStruct | crates/tser_parser_ts/src/type_decl/struct_.rs:8-25 | `parse_struct`; stated by `TypeParamsRejected`, `ExtendsRejected`, `StructFields`, `StructSucceedsIff` and `FirstFailingMember` |
| EnumParser.ParseEnumMember | crates/tser_parser_ts/src/type_decl/enm.rs:11-35 | a member is read iff it has no initialiser, a string literal, or an integral number (non-negative and within `i64`, as the literal type `Syntax.LiteralInt` requires); the name and value are read from the member |
| EnumParser.FirstKind | crates/tser_parser_ts/src/type_decl/enm.rs:40-54 | the first member fixes the enum kind: a string value gives a string enum, anything else an integer enum |
| EnumParser.Step | crates/tser_parser_ts/src/type_decl/enm.rs:60-78 | a later member keeps the kind and adds exactly its name; a misfit is rejected at the member's span |
| EnumParser.ParseEnum | crates/tser_parser_ts/src/type_decl/enm.rs:37-84 | the loop over members returns what the specification function `ParseEnumSpec` gives |
| EnumParser.PushReadFails | crates/tser_parser_ts/src/type_decl/enm.rs:59 | a member that cannot be read ends the loop with its own error |
| EnumParser.PushStepFails | crates/tser_parser_ts/src/type_decl/enm.rs:77 | a member of the wrong kind ends the loop with its span |
| EnumParser.PushAfterStep | crates/tser_parser_ts/src/type_decl/enm.rs:58-79 | after a successful step the loop continues with the remaining members |
| EnumParser.EmptyEnumRejected | crates/tser_parser_ts/src/type_decl/enm.rs:55-57 | an enum with no members is rejected at the enum's span |
| EnumParser.IntegersFollowCons | crates/tser_parser_ts/src/type_decl/enm.rs:61-70 | one integer case per member, explicit or previous + 1, extends to a longer run |
| EnumParser.PushIntegersSucceeds | crates/tser_parser_ts/src/type_decl/enm.rs:58-79 | an integer enum accepts the remaining members iff each is an integer or bare member |
| EnumParser.PushIntegersCases | crates/tser_parser_ts/src/type_decl/enm.rs:61-70 | the earlier cases are kept, and each later case is explicit or the previous value + 1 |
| EnumParser.PushIntegers | crates/tser_parser_ts/src/type_decl/enm.rs:58-79 | the integer-enum loop succeeds iff every member fits; the cases are the earlier ones then one per member, explicit or previous + 1 |
| EnumParser.PushStrings | crates/tser_parser_ts/src/type_decl/enm.rs:71-76 | the string-enum loop succeeds iff every member has a string literal; the cases are the earlier ones then one per member with its literal |
| EnumParser.EnumSucceedsIff | crates/tser_parser_ts/src/type_decl/enm.rs:37-84 | parsing succeeds iff the enum is non-empty and all members are string members or all are integer/bare members |
| EnumParser.StringValues | crates/tser_parser_ts/src/type_decl/enm.rs:100-117 | a string enum has the declaration's name and one case per member with its literal value |
| EnumParser.IntegerValues | crates/tser_parser_ts/src/type_decl/enm.rs:120-156 | an integer enum has one case per member; a bare member is 0 when first and the previous value + 1 otherwise, so values need not be ordered |
| EnumParser.FirstMemberFixesKind | crates/tser_parser_ts/src/type_decl/enm.rs:40-54 | the enum is a string enum iff its first member is a string member |
| EnumParser.OneCasePerMember | crates/tser_parser_ts/src/type_decl/enm.rs:58-79 | the case names are the member names, in order |
| EnumParser.PushFailsAtFirstMisfit | crates/tser_parser_ts/src/type_decl/enm.rs:58-79 | the loop fails at the first member that does not fit, with that member's read error or its span |
| EnumParser.FirstMisfitError | crates/tser_parser_ts/src/type_decl/enm.rs:37-84 | the enum is rejected at the first member that does not fit the first member's kind |
| EnumParser.UnorderedIntegers | crates/tser_parser_ts/src/type_decl/enm.rs:140-156 | `enum Foo { X = 4, Y = 2, Z }` gives 4, 2 and 3 |
| EnumParser.MixedKindsRejected | crates/tser_parser_ts/src/type_decl/enm.rs:172-174 | `enum Foo { X = 0, Y = 'Y' }` is rejected at `Y` |
| EnumParser.PushMembers | crates/tser_parser_ts/src/type_decl/enm.rs:58-79 | the loop over the later members as a recursive function, stopping at the first error; stated by `PushIntegers`, `PushStrings` and `PushFailsAtFirstMisfit` |
| EnumParser.ParseEnumSpec | crates/tser_parser_ts/src/type_decl/enm.rs:37-84 | `parse_enum` as a function, against which the method `ParseEnum` is proved; stated by `EnumSucceedsIff`, `StringValues`, `IntegerValues`, `FirstMemberFixesKind`, `OneCasePerMember`, `EmptyEnumRejected` and `FirstMisfitError` |
| UnionParser.LeavesAllAppend | crates/tser_parser_ts/src/type_decl/union.rs:18-20 | the arms of a list of types are the arms of each part, in order |
| UnionParser.LeavesAreNotUnions | crates/tser_parser_ts/src/type_decl/union.rs:10-25 | the callback never sees a union, and a non-union is its own single arm |
| UnionParser.LeavesAllAreNotUnions | crates/tser_parser_ts/src/type_decl/union.rs:18-20 | no arm of a list of types is a union |
| UnionParser.LeavesIdempotent | crates/tser_parser_ts/src/type_decl/union.rs:10-25 | flattening the arms again changes nothing |
| UnionParser.NonUnionsAreOwnLeaves | crates/tser_parser_ts/src/type_decl/union.rs:23 | a list without unions is its own list of arms |
| UnionParser.NestedUnionFlattened | crates/tser_parser_ts/src/type_decl/union.rs:14-22 | a union node directly inside a union (`UnionType([a, UnionType([b, c])])`, no parentheses between them) has the arms `a`, `b`, `c` |
| UnionParser.ArmRunFirst | crates/tser_parser_ts/src/type_decl/union.rs:41-65 | the member loop is one step followed by the rest |
| UnionParser.ParseArm | crates/tser_parser_ts/src/type_decl/union.rs:37-74 | the arm loop returns what the specification function `ParseArmSpec` gives |
| UnionParser.AllOkRest | crates/tser_parser_ts/src/type_decl/union.rs:41-65 | when every member is acceptable, so are the first and the rest |
| UnionParser.ArmStepMeaning | crates/tser_parser_ts/src/type_decl/union.rs:42-64 | a step succeeds iff the member is acceptable and is not a second tag; a tag sets the variant name; anything else appends a field |
| UnionParser.AllOkCons | crates/tser_parser_ts/src/type_decl/union.rs:41-65 | all members are acceptable iff the first is and the rest are |
| UnionParser.ArmRunSucceedsIff | crates/tser_parser_ts/src/type_decl/union.rs:41-65 | the member loop succeeds iff every member is acceptable and at most one tag is seen |
| UnionParser.ArmRunValue | crates/tser_parser_ts/src/type_decl/union.rs:41-65 | the loop's fields are the non-tag members in order, and its name is the first tag's value |
| UnionParser.ArmSucceedsIff | crates/tser_parser_ts/src/type_decl/union.rs:37-74 | an arm parses iff it is an object literal with acceptable members and exactly one `type` tag; the variant is named by the tag and has the other members as fields |
| UnionParser.TagValueIffTag | crates/tser_parser_ts/src/type_decl/union.rs:43-56 | a tag value exists iff some member is the `type` field |
| UnionParser.MissingTagRejected | crates/tser_parser_ts/src/type_decl/union.rs:66-67 | an arm without a `type` field is rejected at the object literal |
| UnionParser.NonObjectArmRejected | crates/tser_parser_ts/src/type_decl/union.rs:74 | an arm that is not an object literal is rejected at its span |
| UnionParser.OptionalTagRejected | crates/tser_parser_ts/src/type_decl/union.rs:44-46 | an optional `type?` tag is rejected at the member |
| UnionParser.DuplicateTagRejected | crates/tser_parser_ts/src/type_decl/union.rs:47-49 | a second `type` tag is rejected at that member |
| UnionParser.NonLiteralTagRejected | crates/tser_parser_ts/src/type_decl/union.rs:50-56 | a tag whose type is not a string literal is rejected at the type |
| UnionParser.LeavesAllSnoc | crates/tser_parser_ts/src/type_decl/union.rs:18-20 | the arms of a list extended by one type are the earlier arms, then that type's arms |
| UnionParser.CollectOne | crates/tser_parser_ts/src/type_decl/union.rs:23 | visiting a single arm parses that arm |
| UnionParser.LeavesAllSplit | crates/tser_parser_ts/src/type_decl/union.rs:18-20 | the arms of a list are the arms of any prefix, then those of the rest |
| UnionParser.TraverseStep | crates/tser_parser_ts/src/type_decl/union.rs:18-20 | one iteration of the child loop keeps the accumulated variants equal to the arms parsed so far, or ends with the first failure |
| UnionParser.TraverseVariants | crates/tser_parser_ts/src/type_decl/union.rs:10-25 | the traversal appends one parsed variant per arm, in order, or stops with the first arm's error |
| UnionParser.ParseUnion | crates/tser_parser_ts/src/type_decl/union.rs:27-78 | the imperative parser returns what the specification function `ParseUnionSpec` gives |
| UnionParser.UnionTypeParamsRejected | crates/tser_parser_ts/src/type_decl/union.rs:28-30 | a generic alias is rejected at its type parameters |
| UnionParser.OneVariantPerLeaf | crates/tser_parser_ts/src/type_decl/union.rs:27-78 | a parsed union has the alias's name and one variant per arm, in order, each an object literal parsed as an arm |
| UnionParser.SingleArmUnion | crates/tser_parser_ts/src/type_decl/union.rs:35-77 | an alias of a single object literal is a one-variant union |
| UnionParser.SingleVariantExample | crates/tser_parser_ts/src/type_decl/union.rs:140-151 | `type Foo = { type: 'a' }` is the union `Foo` with the variant `a` and no fields |
| UnionParser.Leaves | crates/tser_parser_ts/src/type_decl/union.rs:10-25 | `traverse_ts_union_variants`: the types the callback is called on, in order; stated by `LeavesAreNotUnions`, `LeavesIdempotent`, `NestedUnionFlattened` and `ParenthesizedUnionArmRejected` |
| UnionParser.LeavesAll | crates/tser_parser_ts/src/type_decl/union.rs:18-20 | the same for the children of a union, in order; stated by `LeavesAllAppend`, `LeavesAllAreNotUnions` and `NonUnionsAreOwnLeaves` |
| UnionParser.ArmStep | crates/tser_parser_ts/src/type_decl/union.rs:42-64 | one iteration of the member loop; stated by `ArmStepMeaning` |
| UnionParser.ArmRun | crates/tser_parser_ts/src/type_decl/union.rs:41-65 | the member loop as a recursive function; stated by `ArmRunFirst`, `ArmRunSucceedsIff` and `ArmRunValue` |
| UnionParser.ParseArmSpec | crates/tser_parser_ts/src/type_decl/union.rs:37-74 | the callback as a function, against which the method `ParseArm` is proved; stated by `ArmSucceedsIff` and the `...Rejected` lemmas |
| UnionParser.ParseUnionSpec | crates/tser_parser_ts/src/type_decl/union.rs:27-78 | `parse_union` as a function, against which the method `ParseUnion` is proved; stated by `UnionTypeParamsRejected`, `OneVariantPerLeaf`, `SingleArmUnion` and `ParenthesizedUnionArmRejected` |
| UnionParser.ParenthesizedUnionArmRejected | crates/tser_parser_ts/src/type_decl/union.rs:14-24 | `A \| (B \| C)` is not flattened: the parenthesised arm is not a union node, so it reaches the callback and is rejected at the parentheses' span (union.rs:74), even after a valid arm |
| TypeDeclParser.ParseTypeDecl | crates/tser_parser_ts/src/type_decl/mod.rs:13-20 | an interface, enum or alias becomes a struct, enum or union with the declared name, failing exactly when its parser fails and with its error; any other declaration is rejected at its span |
| TypeDeclParser.PlainAliasRejected | crates/tser_parser_ts/src/type_decl/union.rs:74 | `type T = string` is not a union and is rejected at `string` |
| TsParser.ParseModuleItem | crates/tser_parser_ts/src/lib.rs:28-36 | an exported or plain declaration becomes a type-declaration item exactly when it parses; anything else is rejected at its span |
| TsParser.ModuleItems | crates/tser_parser_ts/src/lib.rs:20-27 | a parsed module has one item per body item, in order |
| TsParser.ModuleSucceedsIff | crates/tser_parser_ts/src/lib.rs:20-27 | a module parses iff every item is a declaration that parses |
| TsParser.FirstFailingItem | crates/tser_parser_ts/src/lib.rs:20-27 | a module is rejected with the first failing item's error |
| TsParser.Utf8Len | crates/tser_parser_ts/src/lib.rs:48 | a character's UTF-8 length is 1 to 4 bytes, and 1 exactly for ASCII |
| TsParser.ByteLen | crates/tser_parser_ts/src/lib.rs:48 | a line's byte length is at least its character count |
| TsParser.NewlineIndex | crates/tser_parser_ts/src/lib.rs:48 | the index found is the first `'\n'`, or the end |
| TsParser.StripCr | crates/tser_parser_ts/src/lib.rs:48 | `lines()` drops at most one trailing `'\r'` |
| TsParser.Lines | crates/tser_parser_ts/src/lib.rs:48 | `lines()` yields no lines exactly for the empty text, and no line holds a `'\n'` |
| TsParser.LineLengths | crates/tser_parser_ts/src/lib.rs:48 | one byte length per line, in order |
| TsParser.LocateIffPosition | crates/tser_parser_ts/src/lib.rs:44-57 | the loop's result is exactly the position characterised by `IsPosition`: it skips whole lines while the column exceeds their length |
| TsParser.SourcePosMeaning | crates/tser_parser_ts/src/lib.rs:44-57 | the reported position satisfies that characterisation, and its line is at most the number of lines |
| TsParser.FirstLine | crates/tser_parser_ts/src/lib.rs:49-54 | an offset within the first line is reported on line 0 at that column |
| TsParser.NewlinesNotCounted | crates/tser_parser_ts/src/lib.rs:48-51 | line lengths leave out the `'\n'`, so offset 3 of `"ab\ncd"` is line 1, column 1 |
| TsParser.LocateFirst | crates/tser_parser_ts/src/lib.rs:49-51 | skipping a line adds one to the line and subtracts its length from the column |
| TsParser.FromSourceSpan | crates/tser_parser_ts/src/lib.rs:44-57 | the loop computes the specification position of the span's start |
| TsParser.Display | crates/tser_parser_ts/src/lib.rs:60-64 | the text starts with `"Line "` |
| TsParser.DigitsSplit | crates/tser_parser_ts/src/lib.rs:62 | a digit run followed by a non-digit is split in one way only |
| TsParser.DisplayInjective | crates/tser_parser_ts/src/lib.rs:60-64 | distinct positions print differently |
| TsParser.ParseFile | crates/tser_parser_ts/src/lib.rs:77-98 | a syntax error is reported at its position with its message; otherwise the result is the module's parse |
| TsParser.StructureErrorMessage | crates/tser_parser_ts/src/lib.rs:87-96 | a structure error is reported as `Line L, Column C message`, with `Unrecognized structure` when there is no message |
| TsParser.OtherItemReported | crates/tser_parser_ts/src/lib.rs:32 | a leading non-declaration item is reported as `Unrecognized structure` at its position |
| TsParser.ParseModule | crates/tser_parser_ts/src/lib.rs:20-27 | `parse_module`; stated by `ModuleItems`, `ModuleSucceedsIff` and `FirstFailingItem` |
| TsParser.Locate | crates/tser_parser_ts/src/lib.rs:48-55 | the walk over line lengths as a recursive function; stated by `LocateIffPosition`, `LocateFirst` and `NewlinesNotCounted` |
| TsParser.SourcePosOf | crates/tser_parser_ts/src/lib.rs:44-57 | `SourcePos::from_source_span` as a function, against which the method `FromSourceSpan` is proved; stated by `SourcePosMeaning` and `FirstLine` |
| TsParser.ErrorText | crates/tser_parser_ts/src/lib.rs:81-95 | the `"{} {}"` message: the position's text, a space and the message; stated by `StructureErrorMessage`, `OtherItemReported` and `DisplayInjective` |
| Numerals.DigitOf | crates/tser_parser_ts/src/lib.rs:62 | reading a digit character gives a digit below the base that writes back to the same character |
| Numerals.DigitCharOf | crates/tser_parser_ts/src/lib.rs:62 | writing a digit and reading it back gives the digit |
| Numerals.ToDigits | crates/tser_parser_ts/src/lib.rs:62 | a number's digits are canonical, and start with `0` only for zero |
| Numerals.ToDigitsValue | crates/tser_parser_ts/src/lib.rs:62 | the digits' value is the number |
| Numerals.ZeroValueAllZeros | crates/tser_parser_ts/src/lib.rs:62 | digits of value zero are all `0` |
| Numerals.CanonicalIsToDigits | crates/tser_parser_ts/src/lib.rs:62 | canonical digits are the digits of their own value |
| Numerals.ToDigitsStep | crates/tser_parser_ts/src/lib.rs:62 | a number's digits are its quotient's digits, then its last digit |
| Numerals.ToDigitsInjective | crates/tser_parser_ts/src/lib.rs:62 | distinct numbers have distinct digits |
| Numerals.NatToString | crates/tser_parser_ts/src/lib.rs:62 | a `u32` prints as canonical decimal |
| Numerals.Hex | crates/tser_codegen/src/rust.rs:9-11 | code points in escapes are canonical hexadecimal |
| Numerals.IntToString | crates/tser_codegen/src/lib.rs:67 | an `i64` prints with a leading `-` exactly when negative |
| Numerals.IntToStringRoundTrip | crates/tser_codegen/src/lib.rs:67 | the printed integer reads back to the same integer |
| Numerals.ParseIntRoundTrip | crates/tser_codegen/src/lib.rs:67 | an integer text that reads back is the one the integer prints as |
| Escape.EscapeChar | crates/tser_codegen/src/rust.rs:9-11 | a character escapes to itself iff it is plain; otherwise to a backslash sequence; all output is printable ASCII |
| Escape.EscapeDefault | crates/tser_codegen/src/rust.rs:9-11 | escaping never shortens and yields printable ASCII only |
| Escape.Quote | crates/tser_codegen/src/swift.rs:14-16 | a quoted string starts and ends with `"` |
| Escape.HexRun | crates/tser_codegen/src/rust.rs:9-11 | the hex run found is the longest run of hex digits at the start |
| Escape.UnescapeOne | crates/tser_codegen/src/rust.rs:9-11 | reading one escape consumes between 1 and all of the input |
| Escape.UnescapeHex | crates/tser_codegen/src/rust.rs:9-11 | a `\u{...}` escape consumes at least four characters |
| Escape.HexRunStopsAtBrace | crates/tser_codegen/src/rust.rs:9-11 | the hex run stops at the closing brace |
| Escape.UnescapeOneEscapeChar | crates/tser_codegen/src/rust.rs:9-11 | the escape of any character reads back to that character and its length |
| Escape.UnescapeOneShort | crates/tser_codegen/src/rust.rs:9-11 | a printable, tab, carriage-return or newline escape reads back |
| Escape.UnescapeOneHex | crates/tser_codegen/src/rust.rs:9-11 | a `\u{...}` escape of any other character reads back |
| Escape.UnescapeOneHexForm | crates/tser_codegen/src/rust.rs:9-11 | `\u{h}` reads back to the code point `h` names |
| Escape.UnescapeHexDigits | crates/tser_codegen/src/rust.rs:9-11 | the digits of `\u{h}` and its brace read back to the code point |
| Escape.UnescapeEscapeDefault | crates/tser_codegen/src/rust.rs:9-11 | escaping is inverted by unescaping, for every string |
| Escape.UnquoteQuote | crates/tser_codegen/src/swift.rs:14-16 | quoting is inverted by unquoting |
| Escape.QuoteInjective | crates/tser_codegen/src/rust.rs:9-11 | distinct strings quote differently |
| Escape.PlainUnchanged | crates/tser_codegen/src/rust.rs:9-11 | a string of plain characters escapes to itself |
| Escape.EscapeExamples | crates/tser_codegen/src/rust.rs:9-11 | `a"b` escapes to `a\"b`, and `é` to `\u{e9}` |
| Blocks.ChildMods | crates/tser_block/src/lib.rs:67-73 | iterating a block yields one modifier per child |
| Blocks.TextMods | crates/tser_block/src/lib.rs:13-22 | one string modifier per line |
| Blocks.LineChildren | crates/tser_block/src/lib.rs:4-7 | one line child per line |
| Blocks.TextModsEffect | crates/tser_block/src/lib.rs:13-22 | appending strings one by one adds one line each, in order |
| Blocks.EffectAllAppend | crates/tser_block/src/lib.rs:81-88 | applying two lists of modifiers adds their effects in order |
| Blocks.EffectAllOne | crates/tser_block/src/lib.rs:81-88 | applying one modifier adds its effect |
| Blocks.ReplaceInMiddle | crates/tser_block/src/lib.rs:81-88 | a modifier may be replaced by a list with the same effect |
| Blocks.EmptyBlock | crates/tser_block/src/lib.rs:138-141 | `block![]` is empty |
| Blocks.TextAppendsLine | crates/tser_block/src/lib.rs:13-22 | a string adds exactly one line after the earlier children |
| Blocks.MaybeTransparent | crates/tser_block/src/lib.rs:23-29 | `None` adds nothing; `Some(x)` adds what `x` adds |
| Blocks.BlockIterAddsSubBlock | crates/tser_block/src/lib.rs:31-51 | `block(iter)` adds exactly one nested block holding the items' effects |
| Blocks.NestedAddsSubBlock | crates/tser_block/src/lib.rs:56-60 | a block used as a modifier adds exactly one nested block, itself, after the earlier children |
| Blocks.FlattenIterSplices | crates/tser_block/src/lib.rs:40-54 | `flatten(iter)` adds the items' effects at the same level |
| Blocks.ChildModsEffect | crates/tser_block/src/lib.rs:67-79 | appending a block's children one by one rebuilds them |
| Blocks.FlattenSplices | crates/tser_block/src/lib.rs:56-60 | `flatten(b)` and `flatten![...]` splice children without a new level |
| Blocks.BlockBuilder.constructor | crates/tser_block/src/lib.rs:62-65 | a default block has no children |
| Blocks.BlockBuilder.Modify | crates/tser_block/src/lib.rs:13-79 | every modifier only appends its effect to the children |
| Blocks.MakeBlock | crates/tser_block/src/lib.rs:81-88 | `block!` builds the block its modifiers describe |
| Blocks.IndentOf | crates/tser_block/src/lib.rs:97 | the indent is four spaces per level |
| Blocks.EmitStr | crates/tser_block/src/lib.rs:99-119 | emitting appends the rendering of the block to what was already collected |
| Blocks.BlockString | crates/tser_block/src/lib.rs:121-131 | `string()` is the rendering at level 0 |
| Blocks.RenderChildrenAppend | crates/tser_block/src/lib.rs:99-119 | the rendering of concatenated children is the concatenation |
| Blocks.FlatChildren | crates/tser_block/src/lib.rs:99-119 | every line of a block sits at least at the block's level |
| Blocks.FlatChild | crates/tser_block/src/lib.rs:99-119 | every line of a child sits at least at its parent's level |
| Blocks.JoinLinesAppend | crates/tser_block/src/lib.rs:99-119 | the text of concatenated lines is the concatenation |
| Blocks.RenderIsJoinedLines | crates/tser_block/src/lib.rs:99-119 | rendering writes each line in order at its depth, indented unless empty |
| Blocks.RenderChildIsJoinedLines | crates/tser_block/src/lib.rs:99-119 | the same for one child, a nested block one level deeper |
| Blocks.CountNewlinesAppend | crates/tser_block/src/lib.rs:99-119 | line breaks of a concatenation add up |
| Blocks.NoNewlines | crates/tser_block/src/lib.rs:99-119 | text without `'\n'` has no line breaks |
| Blocks.FlatLength | crates/tser_block/src/lib.rs:99-119 | there is one output line per line child at any depth |
| Blocks.ChildFlatLength | crates/tser_block/src/lib.rs:99-119 | the same for one child |
| Blocks.JoinLinesNewlines | crates/tser_block/src/lib.rs:99-119 | each output line ends in exactly one `'\n'` when the texts hold none |
| Blocks.NewlinePerLine | crates/tser_block/src/lib.rs:99-119 | the rendering holds one `'\n'` per line child at any depth, empty lines included |
| Blocks.RenderSnoc | crates/tser_block/src/lib.rs:99-119 | rendering one more child appends its text |
| Blocks.EffectSnoc | crates/tser_block/src/lib.rs:81-88 | applying one more modifier appends its effect |
| Blocks.ExampleBlocks | crates/tser_block/src/lib.rs:230-233 | the nested `block!`s of the rendering test build the expected children |
| Blocks.ExampleOuter | crates/tser_block/src/lib.rs:230-233 | the outer `block!` nests the inner block between `a` and `e` |
| Blocks.ExampleInnerLines | crates/tser_block/src/lib.rs:230-233 | each inner child renders indented at level 1 or 2, the empty line without spaces |
| Blocks.RenderInnerExample | crates/tser_block/src/lib.rs:230-233 | the inner block renders as `    b\n\n    c\n        d\n` |
| Blocks.RenderOuterExample | crates/tser_block/src/lib.rs:230-233 | the outer block renders the inner text between `a\n` and `e\n` |
| Blocks.RenderExample | crates/tser_block/src/lib.rs:230-233 | `block!["a", block!["b", "", "c", block!["d"]], "e"]` renders as `a\n    b\n\n    c\n        d\ne\n` |
| Blocks.Effect | crates/tser_block/src/lib.rs:13-79 | what `modify_block` appends for each kind of modifier; stated by `TextAppendsLine`, `MaybeTransparent`, `BlockIterAddsSubBlock`, `NestedAddsSubBlock`, `FlattenIterSplices`, `FlattenSplices` and `BlockBuilder.Modify` |
| Blocks.EffectAll | crates/tser_block/src/lib.rs:41-47 | modifiers applied one after another; stated by `EffectAllAppend`, `TextModsEffect` and `ChildModsEffect` |
| Blocks.BlockOf | crates/tser_block/src/lib.rs:81-88 | the `block!` macro as a function, against which `MakeBlock` is proved; stated by `EmptyBlock`, `ReplaceInMiddle` and `ExampleBlocks` |
| Blocks.BlockIter | crates/tser_block/src/lib.rs:49-51 | `block(iter)`; stated by `BlockIterAddsSubBlock` |
| Blocks.FlattenIter | crates/tser_block/src/lib.rs:52-54 | `flatten(iter)`; stated by `FlattenIterSplices` |
| Blocks.FlattenBlock | crates/tser_block/src/lib.rs:67-79 | `flatten(b)` for a block: its children, each appending itself; stated by `ChildModsEffect` and `FlattenSplices` |
| Blocks.FlattenMacro | crates/tser_block/src/lib.rs:90-95 | `flatten![...]`; stated by `FlattenSplices` |
| Blocks.RenderLine | crates/tser_block/src/lib.rs:106-114 | a line's output: indented unless empty, then `'\n'`; stated by `RenderIsJoinedLines`, `ExampleInnerLines` and `NewlinePerLine` |
| Blocks.RenderChildren | crates/tser_block/src/lib.rs:104-117 | the children's output in order; stated by `RenderChildrenAppend`, `RenderIsJoinedLines` and `FlatLength` |
| Blocks.RenderChild | crates/tser_block/src/lib.rs:105-116 | one child's output, a sub-block one level deeper; stated by `RenderChildIsJoinedLines` |
| Blocks.Render | crates/tser_block/src/lib.rs:99-119 | the text `emit_str` delivers, against which `EmitStr` and `BlockString` are proved; stated by `NewlinePerLine` and `RenderExample` |
| RustCodeGen.Head | crates/tser_codegen/src/rust.rs:17-19 | the Rust head is the serde import and a blank line |
| RustCodeGen.FieldLines | crates/tser_codegen/src/rust.rs:37-49 | one `pub name: type,` line per field, in order |
| RustCodeGen.MemberLines | crates/tser_codegen/src/rust.rs:50-70 | one case line per enum value, in order |
| RustCodeGen.StructDeclShape | crates/tser_codegen/src/rust.rs:37-49 | a struct is the derive line, the header, the nested field lines and `}` |
| RustCodeGen.EnumDeclShape | crates/tser_codegen/src/rust.rs:50-70 | an enum is the derive line, `#[repr(i64)]` only for integer enums, the header, the nested case lines and `}` |
| RustCodeGen.IntegerEnumExample | crates/tser_codegen/src/rust.rs:50-70 | `enum E { A = 1 }` is written with `#[repr(i64)]` and the line `A = 1,` |
| RustCodeGen.StringMemberExample | crates/tser_codegen/src/rust.rs:62-66 | a string case is renamed to its quoted value |
| RustCodeGen.Ident | crates/tser_codegen/src/rust.rs:12-14 | Rust names are written unescaped; `TypeSyntax.RustTypeRoundTrip` shows where that clashes |
| RustCodeGen.PrimitiveExpr | crates/tser_codegen/src/rust.rs:23-30 | `String`, `f64`, `bool`; stated by `TypeSyntax.RustTypeRoundTrip` |
| RustCodeGen.IdentifierExpr | crates/tser_codegen/src/rust.rs:20-22 | a name in a type position is written as `Ident` writes it, unescaped; stated by `TypeSyntax.RustTypeRoundTrip` |
| RustCodeGen.ArrayExpr | crates/tser_codegen/src/rust.rs:31-33 | `Vec<T>`; stated by `TypeSyntax.RustKindRoundTrip` |
| RustCodeGen.OptionalExpr | crates/tser_codegen/src/rust.rs:34-36 | `Option<T>`; stated by `TypeSyntax.RustTypeRoundTrip` and `TypeSyntax.NullableArrayExample` |
| RustCodeGen.StructDecl | crates/tser_codegen/src/rust.rs:37-49 | `struct_decl`; stated by `StructDeclShape` |
| RustCodeGen.MemberLine | crates/tser_codegen/src/rust.rs:62-66 | `name = value,` for integers, `#[serde(rename = "value")] name,` for strings; stated by `IntegerEnumExample`, `StringMemberExample` and `Escape.UnquoteQuote` |
| RustCodeGen.EnumDecl | crates/tser_codegen/src/rust.rs:50-70 | `enum_decl`; stated by `EnumDeclShape` |
| SwiftCodeGen.Ident | crates/tser_codegen/src/swift.rs:7-13 | a keyword is written between backticks after a `$`; any other name as it is |
| SwiftCodeGen.Head | crates/tser_codegen/src/swift.rs:21-23 | the Swift head is empty |
| SwiftCodeGen.FieldLines | crates/tser_codegen/src/swift.rs:45-51 | one `public var name: type` line per field, in order |
| SwiftCodeGen.CaseLines | crates/tser_codegen/src/swift.rs:53-66 | one `case` line per enum value, in order |
| SwiftCodeGen.ThreePartShape | crates/tser_codegen/src/swift.rs:45-66 | header, nested lines and `}` build that exact block |
| SwiftCodeGen.StructDeclShape | crates/tser_codegen/src/swift.rs:45-51 | a struct is its header, one nested line per field and `}` |
| SwiftCodeGen.EnumDeclShape | crates/tser_codegen/src/swift.rs:53-66 | an enum is its header, one nested case line per value and `}` |
| SwiftCodeGen.UnidentIdent | crates/tser_codegen/src/swift.rs:7-13 | escaping a name without backticks can be undone |
| SwiftCodeGen.StructEscaped | crates/tser_codegen/src/swift.rs:7-13 | `struct` is a keyword and is escaped |
| SwiftCodeGen.CatchEscaped | crates/tser_codegen/src/swift.rs:7-13 | `catch`, listed twice in the keywords, is escaped like any keyword |
| SwiftCodeGen.StringCaseExample | crates/tser_codegen/src/swift.rs:53-66 | a string case is `case Name = "value"` |
| SwiftCodeGen.PrimitiveExpr | crates/tser_codegen/src/swift.rs:29-35 | `String`, `Bool`, `Double`; stated by `TypeSyntax.SwiftTypeRoundTrip` |
| SwiftCodeGen.IdentifierExpr | crates/tser_codegen/src/swift.rs:25-27 | a name in a type position is escaped as `Ident` escapes it; stated by `SwiftCodeGen.UnidentIdent` and `TypeSyntax.SwiftTypeRoundTrip` |
| SwiftCodeGen.ArrayExpr | crates/tser_codegen/src/swift.rs:37-39 | `[T]`; stated by `TypeSyntax.SwiftKindRoundTrip` |
| SwiftCodeGen.OptionalExpr | crates/tser_codegen/src/swift.rs:41-43 | `T?`; stated by `TypeSyntax.SwiftTypeRoundTrip` and `TypeSyntax.NullableArrayExample` |
| SwiftCodeGen.StructHeader | crates/tser_codegen/src/swift.rs:47 | `public struct Name: Codable, Equatable, Hashable {` with the escaped name; stated by `StructDeclShape` and `Ident` |
| SwiftCodeGen.StructDecl | crates/tser_codegen/src/swift.rs:45-51 | `struct_decl`; stated by `StructDeclShape` |
| SwiftCodeGen.RawType | crates/tser_codegen/src/swift.rs:54-57 | `String` for string enums, `Int64` for integer enums; stated by `EnumDeclShape` |
| SwiftCodeGen.EnumHeader | crates/tser_codegen/src/swift.rs:59 | `public enum Name: Raw, Codable, Equatable, Hashable {`; stated by `EnumDeclShape` |
| SwiftCodeGen.CaseLine | crates/tser_codegen/src/swift.rs:60-63 | `case name = value`, the value quoted for string enums; stated by `StringCaseExample` and `Escape.UnquoteQuote` |
| SwiftCodeGen.EnumDecl | crates/tser_codegen/src/swift.rs:53-66 | `enum_decl`; stated by `EnumDeclShape` |
| CodeGen.FieldPairs | crates/tser_codegen/src/lib.rs:24-36 | one (name, type text) pair per IR field, in order |
| CodeGen.EnumFromIr | crates/tser_codegen/src/lib.rs:61-83 | the view keeps the name, is an integer view iff the IR enum is, and has one value per case |
| CodeGen.StructIgnoresOptional | crates/tser_codegen/src/lib.rs:24-36 | the struct view does not depend on a field's `optional` flag |
| CodeGen.EnumValuesReadBack | crates/tser_codegen/src/lib.rs:61-83 | integer values print as text that reads back to the IR value; string values are kept verbatim |
| CodeGen.ItemBlock | crates/tser_codegen/src/lib.rs:188-200 | an item fails exactly when it is a service or a union, with the matching error |
| CodeGen.ItemModifiers | crates/tser_codegen/src/lib.rs:201 | one modifier per item block, in order |
| CodeGen.ItemModifier | crates/tser_codegen/src/lib.rs:201 | `flatten![flatten(item_block), ""]` for one item; stated by `CodeGen.ItemModifierEffect`: the block's children, then an empty line |
| CodeGen.ItemModifierEffect | crates/tser_codegen/src/lib.rs:201 | each item adds its block's children and then an empty line |
| CodeGen.ItemModifiersEffect | crates/tser_codegen/src/lib.rs:188-202 | all items add their children, each followed by an empty line |
| CodeGen.FileBlockChildren | crates/tser_codegen/src/lib.rs:204 | the file block is the head's children, then the items' |
| CodeGen.ItemChildrenText | crates/tser_codegen/src/lib.rs:204-206 | the items render to the concatenation of each block's text and a newline |
| CodeGen.GenerateLayout | crates/tser_codegen/src/lib.rs:184-207 | the output is the head's text, then each item's text followed by a blank line |
| CodeGen.BlocksPerItem | crates/tser_codegen/src/lib.rs:188-202 | one block per item, in order |
| CodeGen.GenerateFailsIff | crates/tser_codegen/src/lib.rs:184-207 | generation aborts iff some item is a service or a union, and the abort is the first such item's |
| CodeGen.HeadTexts | crates/tser_codegen/src/lib.rs:187 | the Rust output starts with the serde import and a blank line; the Swift output with nothing |
| CodeGen.EmptyFile | crates/tser_codegen/src/lib.rs:184-207 | an empty file generates the head alone |
| CodeGen.Head | crates/tser_codegen/src/lib.rs:173 | `head` of the chosen backend; stated by `HeadTexts` |
| CodeGen.IdentifierExpr | crates/tser_codegen/src/lib.rs:174 | `identifier_expr` of the chosen backend; stated by the `TypeSyntax` round trips |
| CodeGen.PrimitiveExpr | crates/tser_codegen/src/lib.rs:175 | `primitive_expr` of the chosen backend; stated by the `TypeSyntax` round trips |
| CodeGen.ArrayExpr | crates/tser_codegen/src/lib.rs:176 | `array_expr` of the chosen backend; stated by the `TypeSyntax` round trips |
| CodeGen.OptionalExpr | crates/tser_codegen/src/lib.rs:177 | `optional_expr` of the chosen backend; stated by the `TypeSyntax` round trips |
| CodeGen.StructDecl | crates/tser_codegen/src/lib.rs:179 | `struct_decl` of the chosen backend; stated by the backends' `StructDeclShape` |
| CodeGen.EnumDecl | crates/tser_codegen/src/lib.rs:180 | `enum_decl` of the chosen backend; stated by the backends' `EnumDeclShape` |
| CodeGen.TypeExprToString | crates/tser_codegen/src/lib.rs:39-53 | `type_expr_to_string`: the kind's text, wrapped once in the optional form when nullable; stated by `TypeSyntax.RustTypeRoundTrip`, `TypeSyntax.SwiftTypeRoundTrip` and `TypeSyntax.NullableArrayExample` |
| CodeGen.StructFromIr | crates/tser_codegen/src/lib.rs:24-36 | `Struct::from_ir`; stated by `FieldPairs` and `StructIgnoresOptional` |
| CodeGen.ItemBlocks | crates/tser_codegen/src/lib.rs:188-200 | the item blocks in order, stopping at the first item that aborts; stated by `BlocksPerItem` and `GenerateFailsIff` |
| CodeGen.FileBlock | crates/tser_codegen/src/lib.rs:204 | `block![flatten(head), flatten(item_blocks)]`; stated by `FileBlockChildren` |
| CodeGen.Generate | crates/tser_codegen/src/lib.rs:184-207 | `generate`; stated by `GenerateLayout`, `GenerateFailsIff`, `HeadTexts` and `EmptyFile` |
| TypeSyntax.RustKindTextShape | crates/tser_codegen/src/rust.rs:20-36 | a non-nullable Rust type text never starts with `Option<` |
| TypeSyntax.RustKindRoundTrip | crates/tser_codegen/src/lib.rs:40-47 | a Rust kind text reads back to its kind |
| TypeSyntax.RustTypeRoundTrip | crates/tser_codegen/src/lib.rs:39-53 | Rust type text reads back to the IR type expression, when no identifier contains `<` or names a primitive |
| TypeSyntax.SwiftIdentShape | crates/tser_codegen/src/swift.rs:7-13 | an escaped identifier ends in neither `?` nor `]` and is not a primitive's name |
| TypeSyntax.SwiftKindTextShape | crates/tser_codegen/src/swift.rs:25-43 | a non-nullable Swift type text does not end in `?` |
| TypeSyntax.SwiftKindRoundTrip | crates/tser_codegen/src/lib.rs:40-47 | a Swift kind text reads back to its kind |
| TypeSyntax.SwiftTypeRoundTrip | crates/tser_codegen/src/lib.rs:39-53 | Swift type text reads back to the IR type expression, when no identifier contains `?`, `]` or a backtick, or names a primitive |
| TypeSyntax.NullableArrayExample | crates/tser_codegen/src/lib.rs:48-52 | a nullable array of numbers is `Option<Vec<f64>>` in Rust and `[Double]?` in Swift |

## Left out

- The TypeScript lexer and parser (swc) are not modelled. The parser works on the syntax tree they produce; a syntax error is a parameter of `ParseFile`, with its span and message.
- The syntax tree covers only what the parser inspects. Every other kind of module item, declaration or type is one "other" case carrying its span.
- The legacy top-level `src/` crate, the `tser` command-line crate, `tser_wasm` and the website are not part of this model.
- Union code generation is not modelled (`crates/tser_codegen/src/lib.rs:86-170`). Both backends' `union_decl` abort with `unimplemented!`/`todo!`, and that view is never reached. `CodeGen.ItemBlock` reports a union as `UnionUnimplemented`.
- Service items are not modelled beyond their presence. `generate` aborts on them, modelled as `ServiceUnimplemented`, and the parser never produces them.
- Panics in the source are modelled as `Failure` results, not as aborts.
- TypeExprParser.ParseKind: the `dbg!` debug print of an unsupported type, written to standard error before it is rejected, is I/O and is not modelled.
- EnumParser.PushIntegers: the `+ 1` after the previous value is unbounded here. At `i64::MAX` the source overflows; that case is not modelled.
- EnumParser.ParseEnumMember: a number literal is modelled as integral or not. The `f64`-to-`i64` cast is not modelled, so a non-integral number is simply rejected; the saturation of huge values is left out.
- TsParser.FromSourceSpan: positions and line lengths are unbounded naturals, not `u32`; a line longer than 4 GiB would wrap in the source.
- Blocks.EmitStr: the callback is specialised to appending to a string, which is how `string()` uses it. The callback's error type is `Infallible`, so no error path exists.
- Blocks.EmitStr: the `u64` nesting level is an unbounded natural; no block nests deeply enough to wrap it.
- TypeSyntax.RustTypeRoundTrip and TypeSyntax.SwiftTypeRoundTrip hold only for identifiers that do not clash with the generated syntax. Rust identifiers are not escaped, so `String` as a type name is read back as the primitive.
- Line positions follow the code as written. Line lengths leave out the `'\n'`, so the column after the first line is off by the number of line breaks (`TsParser.NewlinesNotCounted`).
- Swift keyword escaping follows the code: it writes `` `$name` `` with a literal `$`.

/**
 * The part of the TypeScript syntax tree (as the swc front end produces it)
 * that the declaration parser looks at. Only the node shapes the parser
 * distinguishes are separate constructors; every other shape is one
 * "Other" constructor carrying its span. The front end itself (lexing and
 * parsing source text) is not part of this model.
 */
module Syntax {
  import opened Wrappers

  /** A source span; `lo` is the byte offset of its first byte. */
  datatype Span = Span(lo: nat, hi: nat)

  /** The keyword types of TypeScript, as swc's `TsKeywordTypeKind` lists them. */
  datatype KeywordKind =
    | AnyKeyword | UnknownKeyword | NumberKeyword | ObjectKeyword | BooleanKeyword
    | BigIntKeyword | StringKeyword | SymbolKeyword | VoidKeyword | UndefinedKeyword
    | NullKeyword | NeverKeyword | IntrinsicKeyword

  /** The name in a type reference: a plain identifier or a qualified name `A.B`. */
  datatype EntityName =
    | EntityIdent(sym: string, span: Span)
    | QualifiedName(span: Span)

  /** A literal type: a string literal, or one of the other literal kinds. */
  datatype TsLit =
    | LitStr(value: string)
    | LitNumber
    | LitBool
    | LitBigInt
    | LitTemplate

  datatype TsType =
    | KeywordType(kind: KeywordKind, span: Span)
    | ArrayType(elemType: TsType, span: Span)
      /** `typeParams` is the span of the type arguments `<...>`, when present */
    | TypeRef(typeName: EntityName, typeParams: Option<Span>, span: Span)
    | UnionType(types: seq<TsType>, span: Span)
    | IntersectionType(types: seq<TsType>, span: Span)
    | ParenthesizedType(typeAnn: TsType, span: Span)
      /** an object-literal type `{ ... }` */
    | TypeLit(members: seq<TsTypeElement>, span: Span)
    | LitType(lit: TsLit, span: Span)
      /** function, tuple, conditional, mapped, indexed-access, `this`, ... types */
    | OtherType(span: Span)

  /** The key of a property signature: an identifier, or any other expression. */
  datatype PropKey =
    | IdentKey(sym: string, span: Span)
    | OtherKey(span: Span)

  /** One member of an interface body or an object-literal type. */
  datatype TsTypeElement =
    | PropertySignature(
        key: PropKey,
        computed: bool,
        optional: bool,
        params: seq<Span>,
        init: Option<Span>,
        typeAnn: Option<TsType>,
        span: Span)
      /** call, construct, method, index, getter and setter signatures */
    | OtherSignature(span: Span)

  /** The name of an enum member: a string literal or an identifier. */
  datatype EnumMemberId =
    | StrId(value: string)
    | IdentId(sym: string)

  /**
   * The integer a numeric literal can hold: never negative (`-1` is a unary
   * minus applied to the literal `1`) and within a signed 64-bit integer.
   */
  type LiteralInt = i: int | 0 <= i < 0x8000_0000_0000_0000

  /**
   * A numeric literal, abstracted: `Integral(i)` when its double value is an
   * integer `i` that survives the round trip through a 64-bit integer.
   */
  datatype NumberLit = Integral(i: LiteralInt) | NonIntegral

  /** An enum member's initializer expression. */
  datatype Expr =
    | StrLit(value: string, span: Span)
    | NumLit(num: NumberLit, span: Span)
    | OtherExpr(span: Span)

  datatype TsEnumMember = TsEnumMember(id: EnumMemberId, init: Option<Expr>, span: Span)

  datatype TsEnumDecl = TsEnumDecl(id: string, members: seq<TsEnumMember>, span: Span)

  /** `typeParams` and `heritage` carry the spans of the type parameters and of the `extends` clauses. */
  datatype TsInterfaceDecl = TsInterfaceDecl(
    id: string,
    typeParams: Option<Span>,
    heritage: seq<Span>,
    body: seq<TsTypeElement>,
    span: Span)

  datatype TsTypeAliasDecl = TsTypeAliasDecl(
    id: string,
    typeParams: Option<Span>,
    typeAnn: TsType,
    span: Span)

  datatype Decl =
    | TsInterface(interface: TsInterfaceDecl)
    | TsEnum(enm: TsEnumDecl)
    | TsTypeAlias(alias: TsTypeAliasDecl)
      /** class, function, variable, namespace/module and `using` declarations */
    | OtherDecl(span: Span)
  {
    function SpanOf(): Span {
      match this
      case TsInterface(i) => i.span
      case TsEnum(e) => e.span
      case TsTypeAlias(a) => a.span
      case OtherDecl(s) => s
    }
  }

  datatype ModuleItem =
    | ExportDecl(decl: Decl, span: Span)
    | StmtDecl(decl: Decl)
      /** imports, default exports, re-exports, expression and other statements */
    | OtherItem(span: Span)
  {
    function SpanOf(): Span {
      match this
      case ExportDecl(_, s) => s
      case StmtDecl(d) => d.SpanOf()
      case OtherItem(s) => s
    }
  }

  datatype Module = Module(body: seq<ModuleItem>, span: Span)
}

/** The parser's own error: an optional message and the span it points at. */
module StructureErrors {
  import opened Wrappers
  import opened Syntax

  datatype StructureError = StructureError(message: Option<string>, span: Span)

  /** `StructureError::from(span)`: no message, just the span. */
  function At(span: Span): StructureError {
    StructureError(None, span)
  }
}

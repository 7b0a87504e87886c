/**
 * Lowering a TypeScript type annotation to an IR type expression
 * (crates/tser_parser_ts/src/type_expr.rs).
 *
 * `ParseKind` is the kind-level parser: keyword primitives, arrays and plain
 * type references. `ParseTypeExpr` adds the two expression-level forms: a
 * two-arm union with `null` (which sets `nullable`) and parentheses.
 */
module TypeExprParser {
  import opened Wrappers
  import opened Syntax
  import opened StructureErrors
  import Ir

  /** The `null` keyword type. */
  predicate IsNull(t: TsType) {
    t.KeywordType? && t.kind == NullKeyword
  }

  function ParseKind(t: TsType): Result<Ir.TypeExprKind, StructureError>
    decreases t, 0
  {
    match t
    case KeywordType(kind, span) =>
      (match kind
       case BooleanKeyword => Success(Ir.Primitive(Ir.Bool))
       case NumberKeyword => Success(Ir.Primitive(Ir.Number))
       case StringKeyword => Success(Ir.Primitive(Ir.Primitive.String))
       case _ => Failure(At(span)))
    case ArrayType(elemType, _) =>
      var element :- ParseTypeExpr(elemType);
      Success(Ir.ArrayOf(element))
    case TypeRef(typeName, typeParams, _) =>
      if typeParams.Some? then Failure(At(typeParams.value))
      else
        (match typeName
         case EntityIdent(sym, _) => Success(Ir.Identifier(sym))
         case QualifiedName(span) => Failure(At(span)))
    case _ => Failure(At(t.span))
  }

  function ParseTypeExpr(t: TsType): Result<Ir.TypeExpr, StructureError>
    decreases t, 1
  {
    match t
    case UnionType(types, span) =>
      if |types| == 2 then
        if IsNull(types[0]) || IsNull(types[1]) then
          var ty := if IsNull(types[0]) then types[1] else types[0];
          var kind :- ParseKind(ty);
          Success(Ir.TypeExpr(true, kind))
        else Failure(At(span))
      else Failure(At(span))
    case ParenthesizedType(typeAnn, _) =>
      ParseTypeExpr(typeAnn)
    case _ =>
      var kind :- ParseKind(t);
      Success(Ir.TypeExpr(false, kind))
  }

  /** `string`, `number` and `boolean` are the three primitives; every other keyword fails at its span. */
  lemma KeywordTypes(kind: KeywordKind, span: Span)
    ensures ParseTypeExpr(KeywordType(kind, span)) ==
      match kind
      case StringKeyword => Success(Ir.TypeExpr(false, Ir.Primitive(Ir.Primitive.String)))
      case NumberKeyword => Success(Ir.TypeExpr(false, Ir.Primitive(Ir.Number)))
      case BooleanKeyword => Success(Ir.TypeExpr(false, Ir.Primitive(Ir.Bool)))
      case _ => Failure(At(span))
  {
  }

  /** `T[]` is a non-nullable array of whatever `T` parses to; an error in `T` is passed on. */
  lemma ArrayTypes(elem: TsType, span: Span)
    ensures ParseTypeExpr(ArrayType(elem, span)) ==
      match ParseTypeExpr(elem)
      case Success(e) => Success(Ir.TypeExpr(false, Ir.ArrayOf(e)))
      case Failure(err) => Failure(err)
  {
  }

  /**
   * A type reference with type arguments fails at the arguments, a qualified
   * name fails at the name, and a plain identifier becomes `Identifier`.
   */
  lemma TypeRefs(name: EntityName, typeParams: Option<Span>, span: Span)
    ensures typeParams.Some? ==> ParseTypeExpr(TypeRef(name, typeParams, span)) == Failure(At(typeParams.value))
    ensures typeParams.None? && name.EntityIdent? ==>
      ParseTypeExpr(TypeRef(name, typeParams, span)) == Success(Ir.TypeExpr(false, Ir.Identifier(name.sym)))
    ensures typeParams.None? && name.QualifiedName? ==>
      ParseTypeExpr(TypeRef(name, typeParams, span)) == Failure(At(name.span))
  {
  }

  /**
   * Every other type (an intersection, an object literal, a literal type, a
   * function type and the like) is rejected at its own span.
   */
  lemma OtherTypesRejected(t: TsType)
    requires t.IntersectionType? || t.TypeLit? || t.LitType? || t.OtherType?
    ensures ParseKind(t) == Failure(At(t.span))
    ensures ParseTypeExpr(t) == Failure(At(t.span))
  {
  }

  /**
   * `T | null` and `null | T` give the same result: `nullable` set and the
   * kind of `T`, or the kind parser's error for `T`.
   */
  lemma NullableEitherSide(t: TsType, n: TsType, span: Span)
    requires IsNull(n) && !IsNull(t)
    ensures ParseTypeExpr(UnionType([t, n], span)) == ParseTypeExpr(UnionType([n, t], span))
    ensures ParseTypeExpr(UnionType([t, n], span)) ==
      match ParseKind(t)
      case Success(k) => Success(Ir.TypeExpr(true, k))
      case Failure(e) => Failure(e)
  {
  }

  /** A union with other than two arms, or with two arms neither of which is `null`, fails at the union. */
  lemma UnionShapeRejected(types: seq<TsType>, span: Span)
    requires |types| != 2 || (!IsNull(types[0]) && !IsNull(types[1]))
    ensures ParseTypeExpr(UnionType(types, span)) == Failure(At(span))
  {
  }

  /** `null | null` fails: the arm that is kept is itself `null`, which the kind parser rejects. */
  lemma NullOrNullRejected(s1: Span, s2: Span, span: Span)
    ensures ParseTypeExpr(UnionType([KeywordType(NullKeyword, s1), KeywordType(NullKeyword, s2)], span))
            == Failure(At(s2))
  {
  }

  /**
   * The arm beside `null` goes through the kind parser, which has no case for
   * parentheses: `(string) | null` fails at the parentheses, while
   * `string[] | null` is a nullable array.
   */
  lemma NullableArmIsKindLevel(inner: TsType, ps: Span, es: Span, ns: Span, span: Span)
    ensures ParseTypeExpr(UnionType([ParenthesizedType(inner, ps), KeywordType(NullKeyword, ns)], span))
            == Failure(At(ps))
    ensures ParseTypeExpr(UnionType([ArrayType(KeywordType(StringKeyword, es), ps), KeywordType(NullKeyword, ns)], span))
            == Success(Ir.TypeExpr(true, Ir.ArrayOf(Ir.TypeExpr(false, Ir.Primitive(Ir.Primitive.String)))))
  {
    var str := Ir.TypeExpr(false, Ir.Primitive(Ir.Primitive.String));
    assert ParseTypeExpr(KeywordType(StringKeyword, es)) == Success(str);
    assert ParseKind(ArrayType(KeywordType(StringKeyword, es), ps)) == Success(Ir.ArrayOf(str));
  }

  /** Parentheses are transparent at expression level. */
  lemma ParenthesesTransparent(t: TsType, span: Span)
    ensures ParseTypeExpr(ParenthesizedType(t, span)) == ParseTypeExpr(t)
  {
  }

  /** `(string | null)[]` is a non-nullable array of nullable strings. */
  lemma NullableElementArray(s1: Span, s2: Span, s3: Span, s4: Span, s5: Span)
    ensures ParseTypeExpr(
              ArrayType(
                ParenthesizedType(UnionType([KeywordType(StringKeyword, s1), KeywordType(NullKeyword, s2)], s3), s4),
                s5))
            == Success(Ir.TypeExpr(false, Ir.ArrayOf(Ir.TypeExpr(true, Ir.Primitive(Ir.Primitive.String)))))
  {
    var u := UnionType([KeywordType(StringKeyword, s1), KeywordType(NullKeyword, s2)], s3);
    var nullableString := Ir.TypeExpr(true, Ir.Primitive(Ir.Primitive.String));
    assert ParseTypeExpr(u) == Success(nullableString);
    assert ParseTypeExpr(ParenthesizedType(u, s4)) == Success(nullableString);
  }

  /** A nullable result comes only from a (possibly parenthesized) two-arm union with `null`. */
  lemma {:induction false} NullableOnlyFromUnion(t: TsType)
    requires ParseTypeExpr(t).Success? && ParseTypeExpr(t).value.nullable
    ensures StripParens(t).UnionType? && |StripParens(t).types| == 2
    ensures IsNull(StripParens(t).types[0]) || IsNull(StripParens(t).types[1])
  {
    if t.ParenthesizedType? {
      NullableOnlyFromUnion(t.typeAnn);
    }
  }

  function StripParens(t: TsType): TsType {
    if t.ParenthesizedType? then StripParens(t.typeAnn) else t
  }

  /* ---------- a canonical syntax tree for every type expression ---------- */

  const NoSpan := Span(0, 0)

  /**
   * The syntax of a type expression: `K | null` for a nullable one, and an
   * array element that is nullable is written in parentheses, `(E | null)[]`.
   */
  function Unparse(te: Ir.TypeExpr): TsType
    decreases te, 1
  {
    if te.nullable then UnionType([UnparseKind(te.kind), KeywordType(NullKeyword, NoSpan)], NoSpan)
    else UnparseKind(te.kind)
  }

  function UnparseKind(k: Ir.TypeExprKind): TsType
    decreases k, 0
  {
    match k
    case Identifier(id) => TypeRef(EntityIdent(id, NoSpan), None, NoSpan)
    case Primitive(p) =>
      (match p
       case String => KeywordType(StringKeyword, NoSpan)
       case Number => KeywordType(NumberKeyword, NoSpan)
       case Bool => KeywordType(BooleanKeyword, NoSpan))
    case ArrayOf(e) =>
      ArrayType(if e.nullable then ParenthesizedType(Unparse(e), NoSpan) else Unparse(e), NoSpan)
  }

  /** Every IR type expression has a syntax that parses back to exactly it. */
  lemma {:induction false} UnparseRoundTrip(te: Ir.TypeExpr)
    ensures ParseTypeExpr(Unparse(te)) == Success(te)
    decreases te, 1
  {
    UnparseKindRoundTrip(te.kind);
  }

  lemma {:induction false} UnparseKindRoundTrip(k: Ir.TypeExprKind)
    ensures ParseKind(UnparseKind(k)) == Success(k)
    ensures !IsNull(UnparseKind(k)) && !UnparseKind(k).UnionType? && !UnparseKind(k).ParenthesizedType?
    decreases k, 0
  {
    match k
    case Identifier(_) =>
    case Primitive(_) =>
    case ArrayOf(e) =>
      UnparseRoundTrip(e);
  }
}

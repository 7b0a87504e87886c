/**
 * Reading one member of an interface body or object-literal type as a plain
 * property `name[?]: T` (crates/tser_parser_ts/src/prop.rs).
 */
module PropParser {
  import opened Wrappers
  import opened Syntax
  import opened StructureErrors
  import opened TypeExprParser
  import Ir

  /** A property: its name, whether it is optional, and its (not yet parsed) type annotation. */
  datatype Prop = Prop(name: string, optional: bool, tsType: TsType, element: TsTypeElement)

  /** A property signature without parameters, initializer or computed key, and with a type annotation. */
  predicate IsSimpleSignature(el: TsTypeElement) {
    && el.PropertySignature?
    && el.params == []
    && el.init.None?
    && !el.computed
    && el.typeAnn.Some?
  }

  function ParseAsProp(el: TsTypeElement): (r: Result<Prop, StructureError>)
    ensures r.Success? <==> IsSimpleSignature(el) && el.key.IdentKey?
    ensures r.Success? ==> r.value == Prop(el.key.sym, el.optional, el.typeAnn.value, el)
    ensures r.Failure? && IsSimpleSignature(el) ==> r.error == At(el.key.span)
    ensures r.Failure? && !IsSimpleSignature(el) ==> r.error == At(el.span)
  {
    match el
    case PropertySignature(key, computed, optional, params, init, typeAnn, span) =>
      if init.None? && !computed && typeAnn.Some? && params == [] then
        match key
        case IdentKey(sym, _) => Success(Prop(sym, optional, typeAnn.value, el))
        case OtherKey(keySpan) => Failure(At(keySpan))
      else Failure(At(span))
    case OtherSignature(span) => Failure(At(span))
  }

  /** `Field::try_from(&prop)`: name and optionality copied, the type annotation parsed. */
  function FieldOfProp(p: Prop): (r: Result<Ir.Field, StructureError>)
    ensures r.Success? <==> ParseTypeExpr(p.tsType).Success?
    ensures r.Success? ==> r.value == Ir.Field(p.name, ParseTypeExpr(p.tsType).value, p.optional)
    ensures r.Failure? ==> r.error == ParseTypeExpr(p.tsType).error
  {
    var ty :- ParseTypeExpr(p.tsType);
    Success(Ir.Field(p.name, ty, p.optional))
  }

  /** One member read as a property and then as a field. */
  function MemberToField(el: TsTypeElement): Result<Ir.Field, StructureError> {
    var prop :- ParseAsProp(el);
    FieldOfProp(prop)
  }
}

/**
 * Lowering an interface declaration to an IR struct
 * (crates/tser_parser_ts/src/type_decl/struct_.rs).
 */
module StructParser {
  import opened Wrappers
  import opened Syntax
  import opened StructureErrors
  import opened TypeExprParser
  import opened PropParser
  import Ir

  function ParseStruct(d: TsInterfaceDecl): Result<Ir.Struct, StructureError> {
    if d.typeParams.Some? then Failure(At(d.typeParams.value))
    else if d.heritage != [] then Failure(At(d.heritage[0]))
    else
      var fields :- Collect(d.body, MemberToField);
      Success(Ir.Struct(d.id, fields))
  }

  /** Type parameters are rejected at their span before anything else is looked at. */
  lemma TypeParamsRejected(d: TsInterfaceDecl)
    requires d.typeParams.Some?
    ensures ParseStruct(d) == Failure(At(d.typeParams.value))
  {
  }

  /** Without type parameters, an `extends` clause is rejected at the first heritage clause. */
  lemma ExtendsRejected(d: TsInterfaceDecl)
    requires d.typeParams.None? && |d.heritage| > 0
    ensures ParseStruct(d) == Failure(At(d.heritage[0]))
  {
  }

  /**
   * On success the struct is named after the interface and has exactly one
   * field per body member, in source order, each carrying the member's name,
   * optionality and parsed type.
   */
  lemma StructFields(d: TsInterfaceDecl)
    requires ParseStruct(d).Success?
    ensures ParseStruct(d).value.name == d.id
    ensures |ParseStruct(d).value.fields| == |d.body|
    ensures forall i :: 0 <= i < |d.body| ==>
      var m := d.body[i];
      && ParseAsProp(m).Success?
      && ParseStruct(d).value.fields[i] ==
           Ir.Field(m.key.sym, ParseTypeExpr(m.typeAnn.value).value, m.optional)
  {
    var fields := Collect(d.body, MemberToField).value;
    forall i | 0 <= i < |d.body|
      ensures ParseAsProp(d.body[i]).Success?
      ensures fields[i] == Ir.Field(d.body[i].key.sym, ParseTypeExpr(d.body[i].typeAnn.value).value, d.body[i].optional)
    {
      assert MemberToField(d.body[i]).Success?;
    }
  }

  /**
   * A struct parse succeeds exactly when there are no type parameters, no
   * `extends`, and every member is a simple identifier-keyed property whose
   * type annotation parses.
   */
  lemma StructSucceedsIff(d: TsInterfaceDecl)
    ensures ParseStruct(d).Success? <==>
      && d.typeParams.None?
      && d.heritage == []
      && forall i :: 0 <= i < |d.body| ==>
           && IsSimpleSignature(d.body[i])
           && d.body[i].key.IdentKey?
           && ParseTypeExpr(d.body[i].typeAnn.value).Success?
  {
    if d.typeParams.None? && d.heritage == [] {
      if forall i :: 0 <= i < |d.body| ==> MemberToField(d.body[i]).Success? {
      } else {
        var i :| 0 <= i < |d.body| && !MemberToField(d.body[i]).Success?;
        assert !(IsSimpleSignature(d.body[i]) && d.body[i].key.IdentKey? && ParseTypeExpr(d.body[i].typeAnn.value).Success?);
      }
    }
  }

  /**
   * When members fail, the whole parse fails with the error of the first
   * failing member: its property error, or else its type error.
   */
  lemma FirstFailingMember(d: TsInterfaceDecl, k: nat)
    requires d.typeParams.None? && d.heritage == []
    requires k < |d.body| && MemberToField(d.body[k]).Failure?
    requires forall i :: 0 <= i < k ==> MemberToField(d.body[i]).Success?
    ensures ParseStruct(d) == Failure(MemberToField(d.body[k]).error)
  {
    var e := Collect(d.body, MemberToField).error;
    var j :| FirstFailureAt(d.body, MemberToField, e, j);
    assert j == k;
  }

  /** `interface Hello { foo?: string }` gives one optional, non-nullable string field `foo`. */
  lemma OptionalStringField(key: Span, ann: Span, member: Span, s: Span)
    ensures
      var foo := PropertySignature(IdentKey("foo", key), false, true, [], None, Some(KeywordType(StringKeyword, ann)), member);
      ParseStruct(TsInterfaceDecl("Hello", None, [], [foo], s))
        == Success(Ir.Struct("Hello", [Ir.Field("foo", Ir.TypeExpr(false, Ir.Primitive(Ir.Primitive.String)), true)]))
  {
    var foo := PropertySignature(IdentKey("foo", key), false, true, [], None, Some(KeywordType(StringKeyword, ann)), member);
    var field := Ir.Field("foo", Ir.TypeExpr(false, Ir.Primitive(Ir.Primitive.String)), true);
    assert ParseAsProp(foo) == Success(Prop("foo", true, KeywordType(StringKeyword, ann), foo));
    assert ParseTypeExpr(KeywordType(StringKeyword, ann)) == Success(field.ty);
    assert MemberToField(foo) == Success(field);
    var c := Collect([foo], MemberToField);
    assert [foo][0] == foo;
    assert c.Success? && |c.value| == 1 && c.value[0] == field;
    assert c.value == [field];
  }
}

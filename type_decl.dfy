/**
 * Dispatching a declaration to the parser for its kind
 * (crates/tser_parser_ts/src/type_decl/mod.rs).
 */
module TypeDeclParser {
  import opened Wrappers
  import opened Syntax
  import opened StructureErrors
  import opened StructParser
  import opened EnumParser
  import opened UnionParser
  import Ir

  /** The identifier a declaration introduces, when it is of a kind the parser reads. */
  function DeclId(d: Decl): string
    requires !d.OtherDecl?
  {
    match d
    case TsInterface(i) => i.id
    case TsEnum(e) => e.id
    case TsTypeAlias(a) => a.id
  }

  /**
   * Interfaces become structs, enums become enums and every type alias becomes
   * a union; any other declaration is an error at its span, and the
   * sub-parser's error is passed on unchanged.
   */
  function ParseTypeDecl(d: Decl): (r: Result<Ir.TypeDecl, StructureError>)
    ensures d.OtherDecl? ==> r == Failure(At(d.span))
    ensures r.Success? ==> !d.OtherDecl? && r.value.Name() == DeclId(d)
    ensures r.Success? ==>
      && (r.value.StructDecl? <==> d.TsInterface?)
      && (r.value.EnumDecl? <==> d.TsEnum?)
      && (r.value.UnionDecl? <==> d.TsTypeAlias?)
    ensures d.TsInterface? ==>
      (r.Success? <==> ParseStruct(d.interface).Success?) &&
      (r.Failure? ==> r.error == ParseStruct(d.interface).error)
    ensures d.TsEnum? ==>
      (r.Success? <==> ParseEnumSpec(d.enm).Success?) &&
      (r.Failure? ==> r.error == ParseEnumSpec(d.enm).error)
    ensures d.TsTypeAlias? ==>
      (r.Success? <==> ParseUnionSpec(d.alias).Success?) &&
      (r.Failure? ==> r.error == ParseUnionSpec(d.alias).error)
  {
    match d
    case TsInterface(i) =>
      var st :- ParseStruct(i);
      Success(Ir.StructDecl(st))
    case TsEnum(e) =>
      var enm :- ParseEnumSpec(e);
      Success(Ir.EnumDecl(enm))
    case TsTypeAlias(a) =>
      var union :- ParseUnionSpec(a);
      Success(Ir.UnionDecl(union))
    case OtherDecl(span) => Failure(At(span))
  }

  /** `type X = string` is routed to the union parser, which rejects the keyword at its span. */
  lemma PlainAliasRejected(id: string, kw: Span, span: Span)
    ensures ParseTypeDecl(TsTypeAlias(TsTypeAliasDecl(id, None, KeywordType(StringKeyword, kw), span)))
            == Failure(At(kw))
  {
    var t := KeywordType(StringKeyword, kw);
    assert Leaves(t) == [t];
    CollectOne(t);
  }
}

/**
 * The Rust backend (crates/tser_codegen/src/rust.rs): serde-derived structs
 * and enums, one line per field or case inside a nested block.
 */
module RustCodeGen {
  import opened Wrappers
  import opened Blocks
  import opened Escape
  import opened CodeGenViews
  import Ir

  const DeriveLine := "#[derive(Serialize, Deserialize, Clone, Eq, PartialEq, Debug)]"
  const ReprLine := "#[repr(i64)]"
  const UseLine := "use serde::{Serialize, Deserialize};"

  /** Identifiers are written as they are; Rust keywords are not escaped. */
  function Ident(id: string): string {
    id
  }

  /** The lines every Rust file starts with: the serde import and a blank line. */
  function Head(): (b: Block)
    ensures b == Block([Line(UseLine), Line("")])
  {
    EffectAllOne(Text(UseLine));
    EffectSnoc([Text(UseLine)], Text(""));
    assert [Text(UseLine)] + [Text("")] == [Text(UseLine), Text("")];
    BlockOf([Text(UseLine), Text("")])
  }

  function IdentifierExpr(id: string): string {
    Ident(id)
  }

  function PrimitiveExpr(p: Ir.Primitive): string {
    match p
    case String => "String"
    case Number => "f64"
    case Bool => "bool"
  }

  function ArrayExpr(elem: string): string {
    "Vec<" + elem + ">"
  }

  function OptionalExpr(unwrapped: string): string {
    "Option<" + unwrapped + ">"
  }

  function FieldLines(fields: seq<(string, string)>): (ls: seq<string>)
    ensures |ls| == |fields|
    ensures forall i :: 0 <= i < |fields| ==> ls[i] == "pub " + fields[i].0 + ": " + fields[i].1 + ","
  {
    seq(|fields|, i requires 0 <= i < |fields| => "pub " + fields[i].0 + ": " + fields[i].1 + ",")
  }

  function StructDecl(s: Struct): Block {
    BlockOf([Text(DeriveLine), Text("pub struct " + s.name + " {"), BlockIter(TextMods(FieldLines(s.fields))), Text("}")])
  }

  /** An integer case is `name = value,`; a string case renames a bare case to the quoted value. */
  function MemberLine(valueType: EnumValueType, member: (string, string)): string {
    match valueType
    case Integer => Ident(member.0) + " = " + member.1 + ","
    case String => "#[serde(rename = " + Quote(member.1) + ")] " + Ident(member.0) + ","
  }

  function MemberLines(e: Enum): (ls: seq<string>)
    ensures |ls| == |e.values|
    ensures forall i :: 0 <= i < |ls| ==> ls[i] == MemberLine(e.valueType, e.values[i])
  {
    seq(|e.values|, i requires 0 <= i < |e.values| => MemberLine(e.valueType, e.values[i]))
  }

  function EnumDecl(e: Enum): Block {
    BlockOf([
      Text(DeriveLine),
      Maybe(if e.valueType.Integer? then Some(Text(ReprLine)) else None),
      Text("pub enum " + e.name + " {"),
      BlockIter(TextMods(MemberLines(e))),
      Text("}")])
  }

  /**
   * A struct is the derive line, the `pub struct` header, one nested line
   * `pub field: type,` per field in order, and the closing brace.
   */
  lemma StructDeclShape(s: Struct)
    ensures StructDecl(s) == Block([
      Line(DeriveLine),
      Line("pub struct " + s.name + " {"),
      SubBlock(Block(LineChildren(FieldLines(s.fields)))),
      Line("}")])
  {
    var body := BlockIter(TextMods(FieldLines(s.fields)));
    TextModsEffect(FieldLines(s.fields));
    EffectAllOne(Text(DeriveLine));
    EffectSnoc([Text(DeriveLine)], Text("pub struct " + s.name + " {"));
    assert [Text(DeriveLine)] + [Text("pub struct " + s.name + " {")] == [Text(DeriveLine), Text("pub struct " + s.name + " {")];
    EffectSnoc([Text(DeriveLine), Text("pub struct " + s.name + " {")], body);
    assert [Text(DeriveLine), Text("pub struct " + s.name + " {")] + [body] == [Text(DeriveLine), Text("pub struct " + s.name + " {"), body];
    EffectSnoc([Text(DeriveLine), Text("pub struct " + s.name + " {"), body], Text("}"));
    assert [Text(DeriveLine), Text("pub struct " + s.name + " {"), body] + [Text("}")]
      == [Text(DeriveLine), Text("pub struct " + s.name + " {"), body, Text("}")];
  }

  /**
   * An enum is the derive line, `#[repr(i64)]` for integer enums only, the
   * `pub enum` header, one nested line per case in order, and the closing brace.
   */
  lemma EnumDeclShape(e: Enum)
    ensures EnumDecl(e).children ==
      [Line(DeriveLine)]
      + (if e.valueType.Integer? then [Line(ReprLine)] else [])
      + [Line("pub enum " + e.name + " {"), SubBlock(Block(LineChildren(MemberLines(e)))), Line("}")]
  {
    var repr := Maybe(if e.valueType.Integer? then Some(Text(ReprLine)) else None);
    var body := BlockIter(TextMods(MemberLines(e)));
    TextModsEffect(MemberLines(e));
    var reprLines := if e.valueType.Integer? then [Line(ReprLine)] else [];
    var nested := SubBlock(Block(LineChildren(MemberLines(e))));
    assert Effect(repr) == reprLines;
    assert Effect(body) == [nested];
    HeaderBodyShape(repr, reprLines, "pub enum " + e.name + " {", body, nested);
  }

  /** The derive line, optional attribute lines, a header, one nested body and the closing brace. */
  lemma HeaderBodyShape(attrs: Modifier, attrLines: seq<BlockChild>, header: string, body: Modifier, nested: BlockChild)
    requires Effect(attrs) == attrLines && Effect(body) == [nested]
    ensures EffectAll([Text(DeriveLine), attrs, Text(header), body, Text("}")])
      == [Line(DeriveLine)] + attrLines + [Line(header), nested, Line("}")]
  {
    EffectAllFive(Text(DeriveLine), attrs, Text(header), body, Text("}"));
    assert [Line(DeriveLine)] + attrLines + [Line(header)] + [nested] + [Line("}")]
      == [Line(DeriveLine)] + attrLines + [Line(header), nested, Line("}")];
  }

  lemma EffectAllFive(m0: Modifier, m1: Modifier, m2: Modifier, m3: Modifier, m4: Modifier)
    ensures EffectAll([m0, m1, m2, m3, m4]) == Effect(m0) + Effect(m1) + Effect(m2) + Effect(m3) + Effect(m4)
  {
    EffectAllOne(m0);
    EffectSnoc([m0], m1);
    assert [m0] + [m1] == [m0, m1];
    EffectSnoc([m0, m1], m2);
    assert [m0, m1] + [m2] == [m0, m1, m2];
    EffectSnoc([m0, m1, m2], m3);
    assert [m0, m1, m2] + [m3] == [m0, m1, m2, m3];
    EffectSnoc([m0, m1, m2, m3], m4);
    assert [m0, m1, m2, m3] + [m4] == [m0, m1, m2, m3, m4];
  }

  /** `enum E { A = 1 }` is written with `#[repr(i64)]` and the case line `A = 1,`. */
  lemma IntegerEnumExample()
    ensures EnumDecl(Enum("E", Integer, [("A", "1")])).children ==
      [Line(DeriveLine), Line("#[repr(i64)]"), Line("pub enum E {"), SubBlock(Block([Line("A = 1,")])), Line("}")]
  {
    var e := Enum("E", Integer, [("A", "1")]);
    EnumDeclShape(e);
    assert MemberLine(Integer, ("A", "1")) == "A = 1,";
    var ls := MemberLines(e);
    assert |ls| == 1 && ls[0] == "A = 1,";
    assert ls == ["A = 1,"];
    assert LineChildren(ls) == [Line("A = 1,")];
    assert "pub enum " + "E" + " {" == "pub enum E {";
  }

  /** A string case renames to its quoted value: `#[serde(rename = "a b")] X,`. */
  lemma StringMemberExample()
    ensures MemberLine(String, ("X", "a b")) == "#[serde(rename = \"a b\")] X,"
  {
    assert forall i :: 0 <= i < |"a b"| ==> IsPlain("a b"[i]);
    PlainUnchanged("a b");
  }
}

/**
 * The Swift backend (crates/tser_codegen/src/swift.rs): `Codable`
 * structs and raw-value enums; names that are Swift keywords are escaped.
 */
module SwiftCodeGen {
  import opened Blocks
  import opened Escape
  import opened CodeGenViews
  import Ir

  /** The keyword list exactly as written, in its four groups, repeated entries included. */
  const DeclarationKeywords: seq<string> := [
    "associatedtype", "class", "deinit", "enum", "extension", "fileprivate", "func",
    "import", "init", "inout", "internal", "let", "open", "operator", "private",
    "precedencegroup", "protocol", "public", "rethrows", "static", "struct",
    "subscript", "typealias", "var"]
  const StatementKeywords: seq<string> := [
    "break", "case", "catch", "continue", "default", "defer", "do", "else",
    "fallthrough", "for", "guard", "if", "in", "repeat", "return", "throw",
    "switch", "where", "while"]
  const ExpressionKeywords: seq<string> := [
    "Any", "as", "catch", "false", "is", "nil", "rethrows", "self", "Self",
    "super", "throw", "throws", "true", "try"]
  const PatternKeywords: seq<string> := ["_"]
  const Keywords: seq<string> := DeclarationKeywords + StatementKeywords + ExpressionKeywords + PatternKeywords

  const Protocols := "Codable, Equatable, Hashable"

  /** A keyword is written between backticks after a literal `$`; any other name as it is. */
  function Ident(id: string): (r: string)
    ensures id in Keywords ==> r == "`$" + id + "`"
    ensures id !in Keywords ==> r == id
  {
    if id in Keywords then "`$" + id + "`" else id
  }

  /** Swift files need no preamble. */
  function Head(): (b: Block)
    ensures b.children == []
  {
    BlockOf([])
  }

  function IdentifierExpr(id: string): string {
    Ident(id)
  }

  function PrimitiveExpr(p: Ir.Primitive): string {
    match p
    case String => "String"
    case Bool => "Bool"
    case Number => "Double"
  }

  function ArrayExpr(elem: string): string {
    "[" + elem + "]"
  }

  function OptionalExpr(unwrapped: string): string {
    unwrapped + "?"
  }

  /** Field names are not escaped. */
  function FieldLines(fields: seq<(string, string)>): (ls: seq<string>)
    ensures |ls| == |fields|
    ensures forall i :: 0 <= i < |fields| ==> ls[i] == "public var " + fields[i].0 + ": " + fields[i].1
  {
    seq(|fields|, i requires 0 <= i < |fields| => "public var " + fields[i].0 + ": " + fields[i].1)
  }

  function StructHeader(s: Struct): string {
    "public struct " + Ident(s.name) + ": " + Protocols + " {"
  }

  function StructDecl(s: Struct): Block {
    BlockOf([Text(StructHeader(s)), BlockIter(TextMods(FieldLines(s.fields))), Text("}")])
  }

  function RawType(valueType: EnumValueType): string {
    match valueType
    case String => "String"
    case Integer => "Int64"
  }

  function EnumHeader(e: Enum): string {
    "public enum " + Ident(e.name) + ": " + RawType(e.valueType) + ", " + Protocols + " {"
  }

  /** A case's raw value is the integer text as it is, or the quoted string. */
  function CaseLine(valueType: EnumValueType, member: (string, string)): string {
    "case " + Ident(member.0) + " = " + (match valueType case Integer => member.1 case String => Quote(member.1))
  }

  function CaseLines(e: Enum): (ls: seq<string>)
    ensures |ls| == |e.values|
    ensures forall i :: 0 <= i < |ls| ==> ls[i] == CaseLine(e.valueType, e.values[i])
  {
    seq(|e.values|, i requires 0 <= i < |e.values| => CaseLine(e.valueType, e.values[i]))
  }

  function EnumDecl(e: Enum): Block {
    BlockOf([Text(EnumHeader(e)), BlockIter(TextMods(CaseLines(e))), Text("}")])
  }

  lemma ThreePartShape(header: string, lines: seq<string>)
    ensures BlockOf([Text(header), BlockIter(TextMods(lines)), Text("}")])
      == Block([Line(header), SubBlock(Block(LineChildren(lines))), Line("}")])
  {
    var body := BlockIter(TextMods(lines));
    TextModsEffect(lines);
    EffectAllOne(Text(header));
    EffectSnoc([Text(header)], body);
    assert [Text(header)] + [body] == [Text(header), body];
    EffectSnoc([Text(header), body], Text("}"));
    assert [Text(header), body] + [Text("}")] == [Text(header), body, Text("}")];
  }

  /** A struct is its header, one nested `public var name: type` line per field in order, and `}`. */
  lemma StructDeclShape(s: Struct)
    ensures StructDecl(s) == Block([Line(StructHeader(s)), SubBlock(Block(LineChildren(FieldLines(s.fields)))), Line("}")])
  {
    ThreePartShape(StructHeader(s), FieldLines(s.fields));
  }

  /** An enum is its header, one nested `case` line per value in order, and `}`. */
  lemma EnumDeclShape(e: Enum)
    ensures EnumDecl(e) == Block([Line(EnumHeader(e)), SubBlock(Block(LineChildren(CaseLines(e)))), Line("}")])
  {
    ThreePartShape(EnumHeader(e), CaseLines(e));
  }

  /** Removes the escaping `Ident` adds. */
  function Unident(s: string): string {
    if |s| >= 3 && s[..2] == "`$" && s[|s| - 1] == '`' then s[2..|s| - 1] else s
  }

  /** Names without backticks are recovered from their escaped form. */
  lemma UnidentIdent(id: string)
    requires '`' !in id
    ensures Unident(Ident(id)) == id
  {
    if id in Keywords {
      var s := Ident(id);
      assert s[..2] == "`$" && s[2..|s| - 1] == id;
    } else if |id| >= 3 && id[..2] == "`$" {
      assert id[0] in id;
    }
  }

  /** `struct` is a keyword and is escaped. */
  lemma StructEscaped()
    ensures Ident("struct") == "`$struct`"
  {
    assert DeclarationKeywords[20] == "struct";
    assert "struct" in Keywords;
  }

  /** `catch`, listed twice, escapes like any other keyword. */
  lemma CatchEscaped()
    ensures Ident("catch") == "`$catch`"
  {
    assert StatementKeywords[2] == "catch";
    assert "catch" in Keywords;
  }

  /** A string case whose name is not a keyword is written `case Name = "value"`. */
  lemma StringCaseExample(name: string)
    requires name !in Keywords
    ensures CaseLine(String, (name, "red")) == "case " + name + " = \"red\""
  {
    assert forall i :: 0 <= i < |"red"| ==> IsPlain("red"[i]);
    PlainUnchanged("red");
  }
}

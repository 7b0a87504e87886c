/**
 * The generator's backend-independent part (crates/tser_codegen/src/lib.rs):
 * type expressions rendered through a backend's operations, the views built
 * from the IR, and `generate`, which lays out the whole document.
 */
module CodeGen {
  import opened Wrappers
  import opened Blocks
  import opened Numerals
  import opened CodeGenViews
  import Ir
  import RustGen = RustCodeGen
  import SwiftGen = SwiftCodeGen

  /** The two implementations of the `CodeGen` interface. */
  datatype Backend = Rust | Swift

  function Head(be: Backend): Block {
    match be
    case Rust => RustGen.Head()
    case Swift => SwiftGen.Head()
  }

  function IdentifierExpr(be: Backend, id: string): string {
    match be
    case Rust => RustGen.IdentifierExpr(id)
    case Swift => SwiftGen.IdentifierExpr(id)
  }

  function PrimitiveExpr(be: Backend, p: Ir.Primitive): string {
    match be
    case Rust => RustGen.PrimitiveExpr(p)
    case Swift => SwiftGen.PrimitiveExpr(p)
  }

  function ArrayExpr(be: Backend, elem: string): string {
    match be
    case Rust => RustGen.ArrayExpr(elem)
    case Swift => SwiftGen.ArrayExpr(elem)
  }

  function OptionalExpr(be: Backend, unwrapped: string): string {
    match be
    case Rust => RustGen.OptionalExpr(unwrapped)
    case Swift => SwiftGen.OptionalExpr(unwrapped)
  }

  function StructDecl(be: Backend, s: Struct): Block {
    match be
    case Rust => RustGen.StructDecl(s)
    case Swift => SwiftGen.StructDecl(s)
  }

  function EnumDecl(be: Backend, e: Enum): Block {
    match be
    case Rust => RustGen.EnumDecl(e)
    case Swift => SwiftGen.EnumDecl(e)
  }

  /** The kind's text, wrapped once by the backend's optional form when nullable. */
  function TypeExprToString(te: Ir.TypeExpr, be: Backend): string
    decreases te
  {
    var unwrapped :=
      match te.kind
      case Primitive(p) => PrimitiveExpr(be, p)
      case ArrayOf(element) => ArrayExpr(be, TypeExprToString(element, be))
      case Identifier(id) => IdentifierExpr(be, id);
    if te.nullable then OptionalExpr(be, unwrapped) else unwrapped
  }

  /** The pairs a struct's fields become. */
  function FieldPairs(fields: seq<Ir.Field>, be: Backend): (ps: seq<(string, string)>)
    ensures |ps| == |fields|
    ensures forall i :: 0 <= i < |fields| ==> ps[i] == (fields[i].name, TypeExprToString(fields[i].ty, be))
  {
    seq(|fields|, i requires 0 <= i < |fields| => (fields[i].name, TypeExprToString(fields[i].ty, be)))
  }

  /** `Struct::from_ir`: the name and, per field in order, its name and type text. */
  function StructFromIr(s: Ir.Struct, be: Backend): Struct {
    Struct(s.name, FieldPairs(s.fields, be))
  }

  /** `Enum::from_ir`: integer values become their decimal text, string values are kept. */
  function EnumFromIr(e: Ir.Enum): (r: Enum)
    ensures r.name == e.name
    ensures r.valueType.Integer? <==> e.kind.Integers?
    ensures e.kind.Integers? ==> |r.values| == |e.kind.integers|
    ensures e.kind.Strings? ==> |r.values| == |e.kind.strings|
  {
    match e.kind
    case Integers(cases) =>
      Enum(e.name, Integer, seq(|cases|, i requires 0 <= i < |cases| => (cases[i].name, IntToString(cases[i].value))))
    case Strings(cases) =>
      Enum(e.name, String, seq(|cases|, i requires 0 <= i < |cases| => (cases[i].name, cases[i].value)))
  }

  /**
   * The struct view never looks at a field's `optional` flag: structs that
   * differ only there give the same view.
   */
  lemma StructIgnoresOptional(s: Ir.Struct, t: Ir.Struct, be: Backend)
    requires s.name == t.name && |s.fields| == |t.fields|
    requires forall i :: 0 <= i < |s.fields| ==>
      s.fields[i].name == t.fields[i].name && s.fields[i].ty == t.fields[i].ty
    ensures StructFromIr(s, be) == StructFromIr(t, be)
  {
  }

  /**
   * Enum cases keep their names and order, and each value text reads back
   * as the IR value: integers through their decimal text, strings verbatim.
   */
  lemma EnumValuesReadBack(e: Ir.Enum, i: nat)
    requires i < |EnumFromIr(e).values|
    ensures e.kind.Integers? ==>
      EnumFromIr(e).values[i].0 == e.kind.integers[i].name
      && ParseInt(EnumFromIr(e).values[i].1) == Some(e.kind.integers[i].value)
    ensures e.kind.Strings? ==> EnumFromIr(e).values[i] == (e.kind.strings[i].name, e.kind.strings[i].value)
  {
    if e.kind.Integers? {
      IntToStringRoundTrip(e.kind.integers[i].value);
    }
  }

  /** What aborts generation: the service and union paths have no implementation. */
  datatype GenError = ServiceUnimplemented | UnionUnimplemented

  predicate Unsupported(item: Ir.Item) {
    item.ServiceItem? || item.typeDecl.UnionDecl?
  }

  /** The declaration block for one item. */
  function ItemBlock(item: Ir.Item, be: Backend): (r: Result<Block, GenError>)
    ensures r.Failure? <==> Unsupported(item)
    ensures item.ServiceItem? ==> r == Failure(ServiceUnimplemented)
    ensures item.TypeDeclItem? && item.typeDecl.UnionDecl? ==> r == Failure(UnionUnimplemented)
  {
    match item
    case ServiceItem(_) => Failure(ServiceUnimplemented)
    case TypeDeclItem(d) =>
      match d
      case StructDecl(s) => Success(StructDecl(be, StructFromIr(s, be)))
      case UnionDecl(_) => Failure(UnionUnimplemented)
      case EnumDecl(e) => Success(EnumDecl(be, EnumFromIr(e)))
  }

  function ItemBlocks(file: Ir.File, be: Backend): Result<seq<Block>, GenError> {
    Collect(file.items, item => ItemBlock(item, be))
  }

  /** `flatten![flatten(item_block), ""]`: the block's children, then an empty line. */
  function ItemModifier(b: Block): Modifier {
    FlattenMacro([FlattenBlock(b), Text("")])
  }

  function ItemModifiers(bs: seq<Block>): (ms: seq<Modifier>)
    ensures |ms| == |bs|
    ensures forall i :: 0 <= i < |bs| ==> ms[i] == ItemModifier(bs[i])
  {
    seq(|bs|, i requires 0 <= i < |bs| => ItemModifier(bs[i]))
  }

  /** `block![flatten(head), flatten(item_blocks)]`. */
  function FileBlock(head: Block, bs: seq<Block>): Block {
    BlockOf([FlattenBlock(head), FlattenIter(ItemModifiers(bs))])
  }

  /** `generate`: the file block rendered, or the reason generation aborts. */
  function Generate(file: Ir.File, be: Backend): Result<string, GenError> {
    var blocks :- ItemBlocks(file, be);
    Success(Render(FileBlock(Head(be), blocks), 0))
  }

  /** Each declaration's children followed by one empty line, in order. */
  function ItemChildren(bs: seq<Block>): seq<BlockChild> {
    if bs == [] then [] else ItemChildren(bs[..|bs| - 1]) + bs[|bs| - 1].children + [Line("")]
  }

  /** Each declaration rendered at level 0 followed by a blank line, in order. */
  function ItemsText(bs: seq<Block>): string {
    if bs == [] then "" else ItemsText(bs[..|bs| - 1]) + Render(bs[|bs| - 1], 0) + "\n"
  }

  lemma ItemModifierEffect(b: Block)
    ensures Effect(ItemModifier(b)) == b.children + [Line("")]
  {
    FlattenSplices([], [FlattenBlock(b), Text("")], []);
    ChildModsEffect(b.children);
    EffectSnoc([FlattenBlock(b)], Text(""));
    EffectAllOne(FlattenBlock(b));
    assert [FlattenBlock(b)] + [Text("")] == [FlattenBlock(b), Text("")];
  }

  lemma {:induction false} ItemModifiersEffect(bs: seq<Block>)
    ensures EffectAll(ItemModifiers(bs)) == ItemChildren(bs)
  {
    if bs != [] {
      var init := bs[..|bs| - 1];
      assert ItemModifiers(bs)[..|bs| - 1] == ItemModifiers(init);
      ItemModifiersEffect(init);
      ItemModifierEffect(bs[|bs| - 1]);
    }
  }

  /** The document's top level is the head's children, then each item's children and an empty line. */
  lemma FileBlockChildren(head: Block, bs: seq<Block>)
    ensures FileBlock(head, bs).children == head.children + ItemChildren(bs)
  {
    ChildModsEffect(head.children);
    ItemModifiersEffect(bs);
    EffectAllOne(FlattenBlock(head));
    EffectSnoc([FlattenBlock(head)], FlattenIter(ItemModifiers(bs)));
    assert [FlattenBlock(head)] + [FlattenIter(ItemModifiers(bs))] == [FlattenBlock(head), FlattenIter(ItemModifiers(bs))];
  }

  lemma {:induction false} ItemChildrenText(bs: seq<Block>)
    ensures RenderChildren(ItemChildren(bs), 0) == ItemsText(bs)
  {
    if bs != [] {
      var init, last := bs[..|bs| - 1], bs[|bs| - 1];
      ItemChildrenText(init);
      RenderChildrenAppend(ItemChildren(init) + last.children, [Line("")], 0);
      RenderChildrenAppend(ItemChildren(init), last.children, 0);
      RenderOne(Line(""), 0);
    }
  }

  /**
   * The generated text is the head, then each declaration rendered from
   * level 0 (its own lines unindented, its nested block four spaces in)
   * followed by one blank line, in file order.
   */
  lemma GenerateLayout(file: Ir.File, be: Backend)
    requires ItemBlocks(file, be).Success?
    ensures Generate(file, be) == Success(Render(Head(be), 0) + ItemsText(ItemBlocks(file, be).value))
  {
    var bs := ItemBlocks(file, be).value;
    FileBlockChildren(Head(be), bs);
    RenderChildrenAppend(Head(be).children, ItemChildren(bs), 0);
    ItemChildrenText(bs);
  }

  /** There is one declaration block per item, in file order, when generation goes through. */
  lemma BlocksPerItem(file: Ir.File, be: Backend)
    requires ItemBlocks(file, be).Success?
    ensures |ItemBlocks(file, be).value| == |file.items|
    ensures forall i :: 0 <= i < |file.items| ==>
      ItemBlock(file.items[i], be).Success? &&
      ItemBlocks(file, be).value[i] == ItemBlock(file.items[i], be).value
  {
  }

  /**
   * Generation aborts exactly when some item is a service or a union, and
   * then with the reason of the first such item.
   */
  lemma GenerateFailsIff(file: Ir.File, be: Backend)
    ensures Generate(file, be).Failure? <==> exists i :: 0 <= i < |file.items| && Unsupported(file.items[i])
    ensures Generate(file, be).Failure? ==>
      exists k :: 0 <= k < |file.items| && Unsupported(file.items[k])
        && (forall i :: 0 <= i < k ==> !Unsupported(file.items[i]))
        && Generate(file, be).error == ItemBlock(file.items[k], be).error
  {
    if Generate(file, be).Failure? {
      var f := item => ItemBlock(item, be);
      var e := Collect(file.items, f).error;
      var k :| FirstFailureAt(file.items, f, e, k);
      assert f(file.items[k]).Failure?;
    } else {
      forall i | 0 <= i < |file.items|
        ensures !Unsupported(file.items[i])
      {
        assert ItemBlock(file.items[i], be).Success?;
      }
    }
  }

  /** The Rust head is the serde import and one blank line; Swift has none. */
  lemma HeadTexts()
    ensures Render(Head(Rust), 0) == "use serde::{Serialize, Deserialize};\n\n"
    ensures Render(Head(Swift), 0) == ""
  {
    var first, blank := Line(RustGen.UseLine), Line("");
    RenderOne(first, 0);
    RenderSnoc([first], blank, 0);
    assert [first] + [blank] == Head(Rust).children;
    assert RenderChild(first, 0) == RustGen.UseLine + "\n";
    assert RenderChild(blank, 0) == "\n";
    assert Render(Head(Rust), 0) == RustGen.UseLine + "\n" + "\n";
  }

  /** A file with no items generates only the head. */
  lemma EmptyFile(be: Backend)
    ensures Generate(Ir.File([]), be) == Success(Render(Head(be), 0))
  {
    assert ItemBlocks(Ir.File([]), be).value == [];
    GenerateLayout(Ir.File([]), be);
    assert ItemsText([]) == "";
    assert Render(Head(be), 0) + "" == Render(Head(be), 0);
  }
}

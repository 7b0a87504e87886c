/**
 * Reading a generated type text back into the IR type expression it came
 * from. The readers are the inverse of `CodeGen.TypeExprToString` for each
 * backend, as long as no identifier collides with the backend's own syntax.
 */
module TypeSyntax {
  import Ir
  import CodeGen
  import SwiftCodeGen

  /** Every identifier in the expression satisfies `ok`. */
  predicate IdsSatisfy(te: Ir.TypeExpr, ok: string -> bool)
    decreases te
  {
    match te.kind
    case Identifier(id) => ok(id)
    case ArrayOf(element) => IdsSatisfy(element, ok)
    case Primitive(_) => true
  }

  // ---------------------------------------------------------------------
  // Rust
  // ---------------------------------------------------------------------

  /** A Rust identifier that cannot be mistaken for a generic or a primitive. */
  predicate RustIdOk(id: string) {
    '<' !in id && id != "String" && id != "f64" && id != "bool"
  }

  function ParseRustType(s: string): Ir.TypeExpr
    decreases |s|, 1
  {
    if |s| >= 8 && s[..7] == "Option<" && s[|s| - 1] == '>' then Ir.TypeExpr(true, ParseRustKind(s[7..|s| - 1]))
    else Ir.TypeExpr(false, ParseRustKind(s))
  }

  function ParseRustKind(s: string): Ir.TypeExprKind
    decreases |s|, 0
  {
    if |s| >= 5 && s[..4] == "Vec<" && s[|s| - 1] == '>' then Ir.ArrayOf(ParseRustType(s[4..|s| - 1]))
    else if s == "String" then Ir.Primitive(Ir.Primitive.String)
    else if s == "f64" then Ir.Primitive(Ir.Number)
    else if s == "bool" then Ir.Primitive(Ir.Bool)
    else Ir.Identifier(s)
  }

  /** The text of a kind, which is the whole text when the expression is not nullable. */
  function RustKindText(k: Ir.TypeExprKind): string {
    CodeGen.TypeExprToString(Ir.TypeExpr(false, k), CodeGen.Rust)
  }

  lemma RustKindTextShape(k: Ir.TypeExprKind)
    requires k.Identifier? ==> RustIdOk(k.id)
    ensures !(|RustKindText(k)| >= 8 && RustKindText(k)[..7] == "Option<")
  {
    var t := RustKindText(k);
    match k
    case Identifier(id) =>
      if |t| >= 8 {
        assert t[6] in id;
        assert t[..7][6] == t[6] != '<';
      }
    case ArrayOf(_) =>
      if |t| >= 8 {
        assert t[..7][0] == t[0] == 'V';
      }
    case Primitive(_) =>
  }

  lemma {:induction false} RustKindRoundTrip(k: Ir.TypeExprKind)
    requires IdsSatisfy(Ir.TypeExpr(false, k), RustIdOk)
    ensures ParseRustKind(RustKindText(k)) == k
    decreases k, 0
  {
    var t := RustKindText(k);
    match k
    case ArrayOf(element) =>
      var inner := CodeGen.TypeExprToString(element, CodeGen.Rust);
      assert t == "Vec<" + inner + ">";
      assert t[..4] == "Vec<" && t[4..|t| - 1] == inner;
      RustTypeRoundTrip(element);
    case Primitive(p) =>
    case Identifier(id) =>
      if |t| >= 5 {
        assert t[3] in id;
        assert t[..4][3] == t[3] != '<';
      }
  }

  /** Rust type text reads back to the expression it was written from. */
  lemma {:induction false} RustTypeRoundTrip(te: Ir.TypeExpr)
    requires IdsSatisfy(te, RustIdOk)
    ensures ParseRustType(CodeGen.TypeExprToString(te, CodeGen.Rust)) == te
    decreases te, 1
  {
    var k := RustKindText(te.kind);
    RustKindRoundTrip(te.kind);
    if te.nullable {
      var t := CodeGen.TypeExprToString(te, CodeGen.Rust);
      assert t == "Option<" + k + ">";
      assert t[..7] == "Option<" && t[7..|t| - 1] == k;
    } else {
      RustKindTextShape(te.kind);
    }
  }

  // ---------------------------------------------------------------------
  // Swift
  // ---------------------------------------------------------------------

  /** A Swift identifier that cannot be mistaken for an optional, an array, an escape or a primitive. */
  predicate SwiftIdOk(id: string) {
    '?' !in id && ']' !in id && '`' !in id && id != "String" && id != "Bool" && id != "Double"
  }

  function ParseSwiftType(s: string): Ir.TypeExpr
    decreases |s|, 1
  {
    if |s| >= 1 && s[|s| - 1] == '?' then Ir.TypeExpr(true, ParseSwiftKind(s[..|s| - 1]))
    else Ir.TypeExpr(false, ParseSwiftKind(s))
  }

  function ParseSwiftKind(s: string): Ir.TypeExprKind
    decreases |s|, 0
  {
    if |s| >= 2 && s[0] == '[' && s[|s| - 1] == ']' then Ir.ArrayOf(ParseSwiftType(s[1..|s| - 1]))
    else if s == "String" then Ir.Primitive(Ir.Primitive.String)
    else if s == "Double" then Ir.Primitive(Ir.Number)
    else if s == "Bool" then Ir.Primitive(Ir.Bool)
    else Ir.Identifier(SwiftCodeGen.Unident(s))
  }

  function SwiftKindText(k: Ir.TypeExprKind): string {
    CodeGen.TypeExprToString(Ir.TypeExpr(false, k), CodeGen.Swift)
  }

  /** An identifier's text ends neither in `?` nor in `]`, and is no primitive's name. */
  lemma SwiftIdentShape(id: string)
    requires SwiftIdOk(id)
    ensures var t := SwiftCodeGen.Ident(id);
      && (|t| >= 1 ==> t[|t| - 1] != '?' && t[|t| - 1] != ']')
      && t != "String" && t != "Double" && t != "Bool"
  {
    var t := SwiftCodeGen.Ident(id);
    if id !in SwiftCodeGen.Keywords && |t| >= 1 {
      assert t[|t| - 1] in id;
    }
  }

  lemma SwiftKindTextShape(k: Ir.TypeExprKind)
    requires k.Identifier? ==> SwiftIdOk(k.id)
    ensures var t := SwiftKindText(k); |t| >= 1 ==> t[|t| - 1] != '?'
  {
    if k.Identifier? {
      SwiftIdentShape(k.id);
    }
  }

  lemma {:induction false} SwiftKindRoundTrip(k: Ir.TypeExprKind)
    requires IdsSatisfy(Ir.TypeExpr(false, k), SwiftIdOk)
    ensures ParseSwiftKind(SwiftKindText(k)) == k
    decreases k, 0
  {
    var t := SwiftKindText(k);
    match k
    case ArrayOf(element) =>
      var inner := CodeGen.TypeExprToString(element, CodeGen.Swift);
      assert t == "[" + inner + "]";
      assert t[1..|t| - 1] == inner;
      SwiftTypeRoundTrip(element);
    case Primitive(p) =>
    case Identifier(id) =>
      SwiftIdentShape(id);
      SwiftCodeGen.UnidentIdent(id);
  }

  /** Swift type text reads back to the expression it was written from. */
  lemma {:induction false} SwiftTypeRoundTrip(te: Ir.TypeExpr)
    requires IdsSatisfy(te, SwiftIdOk)
    ensures ParseSwiftType(CodeGen.TypeExprToString(te, CodeGen.Swift)) == te
    decreases te, 1
  {
    var k := SwiftKindText(te.kind);
    SwiftKindRoundTrip(te.kind);
    if te.nullable {
      var t := CodeGen.TypeExprToString(te, CodeGen.Swift);
      assert t == k + "?";
      assert t[..|t| - 1] == k;
    } else {
      SwiftKindTextShape(te.kind);
    }
  }

  /** Nullability is written once, outermost: `Option<Vec<f64>>` and `[Double]?`. */
  lemma NullableArrayExample()
    ensures CodeGen.TypeExprToString(Ir.TypeExpr(true, Ir.ArrayOf(Ir.TypeExpr(false, Ir.Primitive(Ir.Number)))), CodeGen.Rust)
      == "Option<Vec<f64>>"
    ensures CodeGen.TypeExprToString(Ir.TypeExpr(true, Ir.ArrayOf(Ir.TypeExpr(false, Ir.Primitive(Ir.Number)))), CodeGen.Swift)
      == "[Double]?"
  {
  }
}

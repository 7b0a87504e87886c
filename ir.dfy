/**
 * The intermediate representation shared by the parser and the generator:
 * a file is an ordered list of items, each a type declaration (struct, enum
 * or union) or a service placeholder.
 */
module Ir {
  import opened Wrappers

  datatype Primitive = String | Number | Bool

  datatype TypeExprKind =
    | Identifier(id: string)
    | ArrayOf(element: TypeExpr)
    | Primitive(primitive: Primitive)

  /** Nullability is a flag on the expression, not a union member. */
  datatype TypeExpr = TypeExpr(nullable: bool, kind: TypeExprKind)

  datatype Field = Field(name: string, ty: TypeExpr, optional: bool)

  datatype Struct = Struct(name: string, fields: seq<Field>)

  datatype EnumValue<T> = EnumValue(name: string, value: T)

  /** All members of one enum share one kind of value. */
  datatype EnumKind =
    | Strings(strings: seq<EnumValue<string>>)
    | Integers(integers: seq<EnumValue<int>>)

  datatype Enum = Enum(name: string, kind: EnumKind)

  /** A union of object types: one struct per variant, named after its `type` literal. */
  datatype Union = Union(name: string, variants: seq<Struct>)

  datatype TypeDecl =
    | EnumDecl(enm: Enum)
    | StructDecl(st: Struct)
    | UnionDecl(union: Union)
  {
    function Name(): string {
      match this
      case StructDecl(s) => s.name
      case EnumDecl(e) => e.name
      case UnionDecl(u) => u.name
    }
  }

  /** The service placeholder: nothing produces or consumes it yet. */
  datatype ServiceBody = ServiceBody(unary: Option<TypeDecl>, streamItem: Option<TypeDecl>)

  datatype ServiceMethod = ServiceMethod(request: ServiceBody, response: ServiceBody)

  datatype Service = Service(name: string, methods: seq<ServiceMethod>)

  datatype Item =
    | TypeDeclItem(typeDecl: TypeDecl)
    | ServiceItem(service: Service)
  {
    function Name(): string {
      match this
      case ServiceItem(s) => s.name
      case TypeDeclItem(d) => d.Name()
    }
  }

  datatype File = File(items: seq<Item>)
}

/**
 * The backend-neutral views the generator hands to a backend
 * (crates/tser_codegen/src/lib.rs): a struct as its name and
 * (field name, type text) pairs, an enum as its name, its value type and
 * (case name, value text) pairs.
 */
module CodeGenViews {
  datatype EnumValueType = Integer | String

  datatype Struct = Struct(name: string, fields: seq<(string, string)>)

  datatype Enum = Enum(name: string, valueType: EnumValueType, values: seq<(string, string)>)
}

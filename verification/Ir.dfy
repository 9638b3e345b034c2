/** The part of the gateway's schema representation that the walkers read. */
module Ir {
  import opened JsonSyntax

  /** Names are byte strings; the empty name stands for an unset one. */
  type Name = bytes

  datatype TypeKind = ObjectType | EnumType | UnionType | InterfaceType | ScalarType | InputType

  /** A reference: a builtin scalar, a name in the service's types, a map, or a list. */
  datatype TypeRef = TypeRef(builtin: bool, named: Name, entries: MapType, list: ListType)

  datatype MapType = NoMap | MapType(key: TypeRef, value: TypeRef)

  datatype ListType = NoList | ListType(elem: TypeRef)

  datatype Field = Field(name: Name, ref: TypeRef, required: bool)

  datatype Type = Type(
    name: Name,
    kind: TypeKind,
    fields: seq<Field>,
    variants: seq<Name>,
    discriminatorProperty: Name,
    discriminatorMapping: map<Name, Name>)

  type Types = map<Name, Type>

  /** Types are registered under their own names. */
  predicate Keyed(types: Types) {
    forall k | k in types :: types[k].name == k
  }
}

/** The fields of the stack's UA_Variant, as values. */
module VariantValues {
  import opened Common

  /** The built-in types a variant of the compat layer can hold. */
  datatype TypeTag =
    | Boolean | SByte | Byte | Int16 | UInt16 | Int32 | UInt32Tag | Int64 | UInt64
    | Float | Double | String | ByteString | VariantTag

  /** An element: a number for the integer kinds and Boolean (0 or 1), an uninterpreted token otherwise. */
  datatype Elem = Number(n: int) | Token(id: int)

  /** The data pointer: null, the stack's sentinel for an empty array, or allocated elements. */
  datatype Data = Null | EmptyArray | Elements(elems: seq<Elem>)

  datatype Variant = Variant(typ: Option<TypeTag>, data: Data, arrayLength: nat, dims: seq<UInt32>)

  /** The variant of UA_Variant_init. */
  const NULL_VARIANT := Variant(None, Null, 0, [])
}

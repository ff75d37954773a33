/** Field encodings and formats: the type bytes of EventHeader metadata. */
module FieldTypes {
  import opened Bytes

  const ENCODING_INVALID: byte := 0
  const ENCODING_STRUCT: byte := 1
  const ENCODING_VALUE8: byte := 2
  const ENCODING_VALUE16: byte := 3
  const ENCODING_VALUE32: byte := 4
  const ENCODING_VALUE64: byte := 5
  const ENCODING_VALUE128: byte := 6
  const ENCODING_ZSTRING8: byte := 7
  const ENCODING_ZSTRING16: byte := 8
  const ENCODING_ZSTRING32: byte := 9
  const ENCODING_STRING8: byte := 10
  const ENCODING_STRING16: byte := 11
  const ENCODING_STRING32: byte := 12
  const ENCODING_BINARY8: byte := 13

  const CARRAY_FLAG: byte := 0x20
  const VARRAY_FLAG: byte := 0x40
  const CHAIN_FLAG: byte := 0x80

  /** `encoding & 0x1F` */
  function WithoutFlags(encoding: byte): byte { encoding % 0x20 }

  predicate IsConstantLengthArray(encoding: byte) { (encoding / 0x20) % 2 == 1 }

  predicate IsVariableLengthArray(encoding: byte) { (encoding / 0x40) % 2 == 1 }

  predicate IsArray(encoding: byte) {
    IsConstantLengthArray(encoding) || IsVariableLengthArray(encoding)
  }

  /** The chain bit of an encoding or format byte: another type byte follows. */
  predicate HasChainFlag(b: byte) { b >= CHAIN_FLAG }

  function WithoutChainFlag(b: byte): byte { b % CHAIN_FLAG }

  predicate IsFixed(base: byte) { ENCODING_VALUE8 <= base <= ENCODING_VALUE128 }
  predicate IsZString(base: byte) { ENCODING_ZSTRING8 <= base <= ENCODING_ZSTRING32 }
  predicate IsCounted(base: byte) { ENCODING_STRING8 <= base <= ENCODING_BINARY8 }
  predicate IsLeaf(base: byte) { ENCODING_VALUE8 <= base <= ENCODING_BINARY8 }

  /** Byte size of a fixed-length value. */
  function FixedSize(base: byte): (r: nat)
    requires IsFixed(base)
    ensures 1 <= r <= 16
  {
    if base == ENCODING_VALUE8 then 1
    else if base == ENCODING_VALUE16 then 2
    else if base == ENCODING_VALUE32 then 4
    else if base == ENCODING_VALUE64 then 8
    else 16
  }

  /** Byte size of one character of a string encoding. */
  function CharSize(base: byte): (r: nat)
    requires IsZString(base) || IsCounted(base)
    ensures r == 1 || r == 2 || r == 4
  {
    if base == ENCODING_ZSTRING16 || base == ENCODING_STRING16 then 2
    else if base == ENCODING_ZSTRING32 || base == ENCODING_STRING32 then 4
    else 1
  }

  datatype FieldType = FieldType(encoding: byte, format: byte, tag: u16)

  const NO_TYPE := FieldType(ENCODING_INVALID, 0, 0)
}

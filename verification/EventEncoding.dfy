/**
 * Events as trees of fields, and the metadata and payload bytes `EventBuilder` writes for them.
 * `EventBuilder` proves that the class appends exactly these bytes; `EventRoundTrip` that the decoder
 * reads the tree back from them.
 */
module EventEncoding {
  import opened Bytes
  import opened FieldTypes
  import opened EnumeratorModel

  /**
   * A builder field. A leaf is one value (or an array of values) of one encoding: the bytes of a
   * fixed-size value, or of the characters of a string. A struct holds the fields added after it.
   */
  datatype Field =
    | Leaf(name: bytes, encoding: byte, isArray: bool, format: byte, tag: u16, values: seq<bytes>)
    | Struct(name: bytes, tag: u16, fields: seq<Field>)

  const COUNT_MAX: nat := 65535

  /** `meta.len() + data.len()` may not exceed this in `write`. */
  const PAYLOAD_MAX: nat := 65535 - (52 + 16)

  const STRUCT_FIELDS_MAX: nat := 127

  ghost predicate NoZero(s: bytes) { forall i :: 0 <= i < |s| ==> s[i] != 0 }

  /** The bytes form whole values or characters. */
  predicate ValueOk(encoding: byte, v: bytes)
    requires IsLeaf(encoding)
  {
    if IsFixed(encoding) then |v| == FixedSize(encoding) else |v| % CharSize(encoding) == 0
  }

  /** What the builder asks of its caller, and the format's flag bit is clear. */
  ghost predicate FieldOk(f: Field) {
    && NoZero(f.name)
    && match f
       case Leaf(_, encoding, isArray, format, _, values) =>
         && IsLeaf(encoding) && format < CHAIN_FLAG
         && (!isArray ==> |values| == 1)
         && (forall v :: v in values ==> ValueOk(encoding, v))
       case Struct(_, _, fields) =>
         0 < |fields| <= STRUCT_FIELDS_MAX && FieldsOk(fields)
  }

  ghost predicate FieldsOk(fs: seq<Field>) {
    fs == [] || (FieldOk(fs[0]) && FieldsOk(fs[1..]))
  }

  /** Struct nesting. */
  function Depth(f: Field): nat {
    match f
    case Leaf(_, _, _, _, _, _) => 0
    case Struct(_, _, fields) => 1 + DepthAll(fields)
  }

  function DepthAll(fs: seq<Field>): nat {
    if fs == [] then 0
    else
      var d, ds := Depth(fs[0]), DepthAll(fs[1..]);
      if d < ds then ds else d
  }

  // ---- metadata ----

  function WithChainFlag(b: byte): byte {
    if HasChainFlag(b) then b else b + CHAIN_FLAG
  }

  /** `raw_add_meta`: name, zero, encoding, and format and tag where they are not zero. */
  function MetaEntry(bigEndian: bool, name: bytes, encoding: byte, format: byte, tag: u16): bytes {
    name + [0] + MetaType(bigEndian, encoding, format, tag)
  }

  function MetaType(bigEndian: bool, encoding: byte, format: byte, tag: u16): bytes {
    if tag != 0 then [WithChainFlag(encoding), WithChainFlag(format)] + WriteU16(bigEndian, tag)
    else if format != 0 then [WithChainFlag(encoding), format]
    else [encoding]
  }

  /** The encoding byte of a field, array flag included. */
  function EncodingOf(f: Field): byte {
    match f
    case Leaf(_, encoding, isArray, _, _, _) =>
      if isArray && encoding < VARRAY_FLAG then encoding + VARRAY_FLAG else encoding
    case Struct(_, _, _) => ENCODING_STRUCT
  }

  function FormatOf(f: Field): byte {
    match f
    case Leaf(_, _, _, format, _, _) => format
    case Struct(_, _, fields) => |fields| % 128
  }

  function Meta(bigEndian: bool, f: Field): bytes {
    MetaEntry(bigEndian, f.name, EncodingOf(f), FormatOf(f), f.tag)
    + (if f.Struct? then MetaAll(bigEndian, f.fields) else [])
  }

  function MetaAll(bigEndian: bool, fs: seq<Field>): bytes {
    if fs == [] then [] else Meta(bigEndian, fs[0]) + MetaAll(bigEndian, fs[1..])
  }

  // ---- payload ----

  /** A string up to its first zero character, if any. */
  function Prefix(size: nat, v: bytes): bytes
    requires size == 1 || size == 2 || size == 4
  {
    v[..ScanZero(v, 0, size)]
  }

  /** The 32-bit 65535 that precedes a string cut at 65535 characters. */
  function CutPrefix(bigEndian: bool): bytes {
    if bigEndian then [0, 0, 255, 255] else [255, 255, 0, 0]
  }

  /** `raw_add_data_counted` */
  function CountedData(bigEndian: bool, size: nat, v: bytes): bytes
    requires size == 1 || size == 2 || size == 4
  {
    var n := |v| / size;
    if n > COUNT_MAX then CutPrefix(bigEndian) + v[..COUNT_MAX * size]
    else WriteU16(bigEndian, n) + v
  }

  function ValueData(bigEndian: bool, encoding: byte, v: bytes): bytes
    requires IsLeaf(encoding)
  {
    if IsFixed(encoding) then v
    else if IsZString(encoding) then Prefix(CharSize(encoding), v) + Zeros(CharSize(encoding))
    else CountedData(bigEndian, CharSize(encoding), v)
  }

  function ValuesData(bigEndian: bool, encoding: byte, vs: seq<bytes>): bytes
    requires IsLeaf(encoding)
  {
    if vs == [] then [] else ValueData(bigEndian, encoding, vs[0]) + ValuesData(bigEndian, encoding, vs[1..])
  }

  /** `raw_add_data_range`: the count, then the elements, no more than 65535 of them. */
  function RangeData(bigEndian: bool, encoding: byte, vs: seq<bytes>): bytes
    requires IsLeaf(encoding)
  {
    var n := if |vs| > COUNT_MAX then COUNT_MAX else |vs|;
    WriteU16(bigEndian, n) + ValuesData(bigEndian, encoding, vs[..n])
  }

  function Data(bigEndian: bool, f: Field): bytes
    requires FieldOk(f)
  {
    match f
    case Leaf(_, encoding, isArray, _, _, values) =>
      if isArray then RangeData(bigEndian, encoding, values) else ValueData(bigEndian, encoding, values[0])
    case Struct(_, _, fields) => DataAll(bigEndian, fields)
  }

  function DataAll(bigEndian: bool, fs: seq<Field>): bytes
    requires FieldsOk(fs)
  {
    if fs == [] then [] else Data(bigEndian, fs[0]) + DataAll(bigEndian, fs[1..])
  }

  // ---- what fits ----

  /** No string and no array of the field is cut. */
  ghost predicate Uncut(f: Field)
    requires FieldOk(f)
  {
    match f
    case Leaf(_, encoding, isArray, _, _, values) =>
      && (isArray ==> |values| <= COUNT_MAX)
      && (forall v :: v in values ==> ValueUncut(encoding, v))
    case Struct(_, _, fields) => AllUncut(fields)
  }

  predicate ValueUncut(encoding: byte, v: bytes)
    requires IsLeaf(encoding)
  {
    IsCounted(encoding) ==> |v| / CharSize(encoding) <= COUNT_MAX
  }

  ghost predicate AllUncut(fs: seq<Field>)
    requires FieldsOk(fs)
  {
    fs == [] || (Uncut(fs[0]) && AllUncut(fs[1..]))
  }

  lemma ValueDataSize(bigEndian: bool, encoding: byte, v: bytes)
    requires IsLeaf(encoding) && ValueOk(encoding, v)
    ensures |ValueData(bigEndian, encoding, v)| >= 1
    ensures !ValueUncut(encoding, v) ==> |ValueData(bigEndian, encoding, v)| > PAYLOAD_MAX
  {
  }

  lemma {:induction false} ValuesDataSize(bigEndian: bool, encoding: byte, vs: seq<bytes>)
    requires IsLeaf(encoding) && forall v :: v in vs ==> ValueOk(encoding, v)
    ensures |ValuesData(bigEndian, encoding, vs)| >= |vs|
    ensures (exists v :: v in vs && !ValueUncut(encoding, v)) ==> |ValuesData(bigEndian, encoding, vs)| > PAYLOAD_MAX
  {
    if vs != [] {
      ValueDataSize(bigEndian, encoding, vs[0]);
      ValuesDataSize(bigEndian, encoding, vs[1..]);
    }
  }

  /** A field whose payload passes the size check of `write` has not been cut. */
  lemma {:induction false} SmallIsUncut(bigEndian: bool, f: Field)
    requires FieldOk(f) && |Data(bigEndian, f)| <= PAYLOAD_MAX
    ensures Uncut(f)
  {
    match f
    case Leaf(_, encoding, isArray, _, _, values) =>
      if isArray {
        var n := if |values| > COUNT_MAX then COUNT_MAX else |values|;
        ValuesDataSize(bigEndian, encoding, values[..n]);
        assert |values| <= COUNT_MAX;
        assert values[..n] == values;
      } else {
        ValueDataSize(bigEndian, encoding, values[0]);
      }
    case Struct(_, _, fields) => SmallAreUncut(bigEndian, fields);
  }

  lemma {:induction false} SmallAreUncut(bigEndian: bool, fs: seq<Field>)
    requires FieldsOk(fs) && |DataAll(bigEndian, fs)| <= PAYLOAD_MAX
    ensures AllUncut(fs)
  {
    if fs != [] {
      SmallIsUncut(bigEndian, fs[0]);
      SmallAreUncut(bigEndian, fs[1..]);
    }
  }
}

/**
 * `EventBuilder`: metadata and payload buffers that every `add` method appends to. Each public
 * method is proved to append the bytes `EventEncoding` assigns to the field it adds.
 */
module EventBuilder {
  import opened Bytes
  import opened FieldTypes
  import opened EnumeratorModel
  import opened EventEncoding
  import opened EventFraming
  import opened Wrappers

  const ERANGE: int := 34

  datatype WriteResult = Errno(code: int) | Sent(bytes: bytes)

  class EventBuilder {
    // The host's byte order and pointer size.
    const bigEndian: bool
    const pointer64: bool
    var meta: bytes
    var data: bytes
    var version: byte
    var id: u16
    var tag: u16
    var opcode: byte

    constructor (bigEndian: bool, pointer64: bool)
      ensures this.bigEndian == bigEndian && this.pointer64 == pointer64 && meta == [0] && data == []
      ensures version == 0 && id == 0 && tag == 0 && opcode == 0
    {
      this.bigEndian := bigEndian;
      this.pointer64 := pointer64;
      meta := [0]; // the name's terminator
      data := [];
      version, id, tag, opcode := 0, 0, 0, 0;
    }

    method Reset(name: bytes, eventTag: u16)
      requires NoZero(name)
      modifies this
      ensures meta == name + [0] && data == []
      ensures version == 0 && id == 0 && tag == eventTag && opcode == 0
    {
      meta := [];
      data := [];
      version, id, tag, opcode := 0, 0, eventTag, 0;
      meta := meta + name;
      meta := meta + [0];
    }

    method IdVersion(id: u16, version: byte)
      modifies `id, `version
      ensures this.id == id && this.version == version
    {
      this.id := id;
      this.version := version;
    }

    method Opcode(opcode: byte)
      modifies `opcode
      ensures this.opcode == opcode
    {
      this.opcode := opcode;
    }

    function Header(level: byte): EventHeader
      reads this
    {
      EventHeader(DefaultWithExtension(bigEndian, pointer64), version, id, tag, opcode, level)
    }

    /** Refused with ERANGE, or sent whole and within 64 KiB, headers included. */
    method Write(writeIndex: bytes, level: byte, activityId: Option<bytes>, relatedId: Option<bytes>)
      returns (r: WriteResult)
      requires |writeIndex| == WRITE_INDEX_SIZE
      requires relatedId.None? || activityId.Some?
      requires activityId.Some? ==> |activityId.value| == ID_SIZE
      requires relatedId.Some? ==> |relatedId.value| == ID_SIZE
      ensures |meta| + |data| > PAYLOAD_MAX ==> r == Errno(ERANGE)
      ensures |meta| + |data| <= PAYLOAD_MAX ==>
                r == Sent(writeIndex
                          + EventBytes(bigEndian, Header(level), ActivitySection(activityId, relatedId), meta, data))
                && |r.bytes| <= 65535
    {
      if |meta| + |data| > PAYLOAD_MAX {
        r := Errno(ERANGE);
      } else {
        hide Prologue, DefaultWithExtension;
        var sent := WriteEventHeader(bigEndian, pointer64, writeIndex, Header(level), activityId, relatedId, |meta|,
            meta + data);
        r := Sent(sent);
        Append3(writeIndex, Prologue(bigEndian, Header(level), ActivitySection(activityId, relatedId), |meta|),
            meta + data);
      }
    }

    // ---- raw appends ----

    method RawAddMeta(name: bytes, encoding: byte, format: byte, fieldTag: u16)
      requires NoZero(name)
      modifies `meta
      ensures meta == old(meta) + MetaEntry(bigEndian, name, encoding, format, fieldTag)
    {
      meta := meta + name;
      meta := meta + [0];
      if fieldTag != 0 {
        meta := meta + [WithChainFlag(encoding)];
        meta := meta + [WithChainFlag(format)];
        meta := meta + WriteU16(bigEndian, fieldTag);
      } else if format != 0 {
        meta := meta + [WithChainFlag(encoding)];
        meta := meta + [format];
      } else {
        meta := meta + [encoding];
      }
    }

    method RawAddMetaScalar(name: bytes, encoding: byte, format: byte, fieldTag: u16)
      requires NoZero(name) && encoding < CARRAY_FLAG
      modifies `meta
      ensures meta == old(meta) + MetaEntry(bigEndian, name, encoding, format, fieldTag)
    {
      RawAddMeta(name, encoding, format, fieldTag);
    }

    method RawAddMetaVCount(name: bytes, encoding: byte, format: byte, fieldTag: u16)
      requires NoZero(name) && encoding < CARRAY_FLAG
      modifies `meta
      ensures meta == old(meta) + MetaEntry(bigEndian, name, encoding + VARRAY_FLAG, format, fieldTag)
    {
      RawAddMeta(name, encoding + VARRAY_FLAG, format, fieldTag);
    }

    method RawAddDataSlice(value: bytes)
      modifies `data
      ensures data == old(data) + value
    {
      data := data + value;
    }

    /** Up to and including the first zero character, or all characters and a zero one. */
    method RawAddDataCstr(value: bytes, size: nat)
      requires (size == 1 || size == 2 || size == 4) && |value| % size == 0
      modifies `data
      ensures data == old(data) + (Prefix(size, value) + Zeros(size))
    {
      hide Zeros, ScanZero, ZeroChar;
      var pos := 0;
      while pos != |value|
        invariant 0 <= pos <= |value| && pos % size == 0
        invariant ScanZero(value, 0, size) == ScanZero(value, pos, size)
        invariant data == old(data)
        decreases |value| - pos
      {
        WholeCharacter(|value|, pos, size);
        ScanHere(value, pos, size);
        if ZeroChar(value, pos, size) {
          CstrSlice(value, pos, size);
          RawAddDataSlice(value[..pos + size]);
          return;
        }
        pos := pos + size;
      }
      RawAddDataSlice(value);
      RawAddDataSlice(Zeros(size));
      CstrWhole(value, size);
      Append3(old(data), value, Zeros(size));
    }

    method RawAddDataCounted(value: bytes, size: nat)
      requires (size == 1 || size == 2 || size == 4) && |value| % size == 0
      modifies `data
      ensures data == old(data) + CountedData(bigEndian, size, value)
    {
      if |value| / size > COUNT_MAX {
        RawAddDataSlice(CutPrefix(bigEndian));
        RawAddDataSlice(value[..COUNT_MAX * size]);
        Append3(old(data), CutPrefix(bigEndian), value[..COUNT_MAX * size]);
      } else {
        RawAddDataSlice(WriteU16(bigEndian, |value| / size));
        RawAddDataSlice(value);
        Append3(old(data), WriteU16(bigEndian, |value| / size), value);
      }
    }

    /** The element writer that the `add` methods hand to `raw_add_data_range`. */
    method AddData(encoding: byte, value: bytes)
      requires IsLeaf(encoding) && ValueOk(encoding, value)
      modifies `data
      ensures data == old(data) + ValueData(bigEndian, encoding, value)
    {
      if IsFixed(encoding) {
        RawAddDataSlice(value);
      } else if IsZString(encoding) {
        RawAddDataCstr(value, CharSize(encoding));
      } else {
        RawAddDataCounted(value, CharSize(encoding));
      }
    }

    method RawAddDataRange(encoding: byte, values: seq<bytes>)
      requires IsLeaf(encoding) && forall v :: v in values ==> ValueOk(encoding, v)
      modifies `data
      ensures data == old(data) + RangeData(bigEndian, encoding, values)
    {
      hide ValuesData, ValueData, ReadU16;
      var count: u16 := 0;
      var oldDataSize := |data|;
      RawAddDataSlice(WriteU16(bigEndian, count)); // overwritten below
      ghost var reserved := data;
      ghost var elements := [];
      assert values[..0] == [];
      ValuesDataEmpty(bigEndian, encoding);
      var i := 0;
      while i < |values| && count != COUNT_MAX
        invariant 0 <= i <= |values| && i == count <= COUNT_MAX
        invariant data == reserved + elements && elements == ValuesData(bigEndian, encoding, values[..i])
      {
        ValuesDataAppend(bigEndian, encoding, values[..i], values[i]);
        assert values[..i + 1] == values[..i] + [values[i]];
        count := count + 1;
        Append3(reserved, elements, ValueData(bigEndian, encoding, values[i]));
        elements := elements + ValueData(bigEndian, encoding, values[i]);
        AddData(encoding, values[i]);
        i := i + 1;
      }
      PatchFront(old(data), WriteU16(bigEndian, 0), WriteU16(bigEndian, count), elements);
      data := data[..oldDataSize] + WriteU16(bigEndian, count) + data[oldDataSize + 2..];
    }

    // ---- fields ----

    method AddValue(name: bytes, encoding: byte, value: bytes, format: byte, fieldTag: u16)
      requires IsFixed(encoding) && FieldOk(Leaf(name, encoding, false, format, fieldTag, [value]))
      modifies `meta, `data
      ensures meta == old(meta) + Meta(bigEndian, Leaf(name, encoding, false, format, fieldTag, [value]))
      ensures data == old(data) + Data(bigEndian, Leaf(name, encoding, false, format, fieldTag, [value]))
    {
      AddLeaf(name, encoding, format, fieldTag, value);
    }

    /** Counted strings and binary blobs: `add_str`, `add_binary`. */
    method AddStr(name: bytes, encoding: byte, value: bytes, format: byte, fieldTag: u16)
      requires IsCounted(encoding) && FieldOk(Leaf(name, encoding, false, format, fieldTag, [value]))
      modifies `meta, `data
      ensures meta == old(meta) + Meta(bigEndian, Leaf(name, encoding, false, format, fieldTag, [value]))
      ensures data == old(data) + Data(bigEndian, Leaf(name, encoding, false, format, fieldTag, [value]))
    {
      AddLeaf(name, encoding, format, fieldTag, value);
    }

    method AddCstr(name: bytes, encoding: byte, value: bytes, format: byte, fieldTag: u16)
      requires IsZString(encoding) && FieldOk(Leaf(name, encoding, false, format, fieldTag, [value]))
      modifies `meta, `data
      ensures meta == old(meta) + Meta(bigEndian, Leaf(name, encoding, false, format, fieldTag, [value]))
      ensures data == old(data) + Data(bigEndian, Leaf(name, encoding, false, format, fieldTag, [value]))
    {
      AddLeaf(name, encoding, format, fieldTag, value);
    }

    /** Scalar metadata, then the value: the shape of `add_value`, `add_str`, `add_cstr`, `add_binary`. */
    method AddLeaf(name: bytes, encoding: byte, format: byte, fieldTag: u16, value: bytes)
      requires FieldOk(Leaf(name, encoding, false, format, fieldTag, [value]))
      modifies `meta, `data
      ensures meta == old(meta) + Meta(bigEndian, Leaf(name, encoding, false, format, fieldTag, [value]))
      ensures data == old(data) + Data(bigEndian, Leaf(name, encoding, false, format, fieldTag, [value]))
    {
      assert value in [value];
      RawAddMetaScalar(name, encoding, format, fieldTag);
      AddData(encoding, value);
    }

    /** Array metadata, then count and elements: the shape of the four `add_..._sequence` methods. */
    method AddSequence(name: bytes, encoding: byte, values: seq<bytes>, format: byte, fieldTag: u16)
      requires FieldOk(Leaf(name, encoding, true, format, fieldTag, values))
      modifies `meta, `data
      ensures meta == old(meta) + Meta(bigEndian, Leaf(name, encoding, true, format, fieldTag, values))
      ensures data == old(data) + Data(bigEndian, Leaf(name, encoding, true, format, fieldTag, values))
    {
      RawAddMetaVCount(name, encoding, format, fieldTag);
      RawAddDataRange(encoding, values);
    }

    method AddStruct(name: bytes, fieldCount: byte, fieldTag: u16)
      requires NoZero(name) && 0 < fieldCount <= STRUCT_FIELDS_MAX
      modifies `meta
      ensures meta == old(meta) + MetaEntry(bigEndian, name, ENCODING_STRUCT, fieldCount, fieldTag)
    {
      RawAddMeta(name, ENCODING_STRUCT, fieldCount, fieldTag);
    }

    method AddStructWithBookmark(name: bytes, initialFieldCount: byte, fieldTag: u16) returns (bookmark: nat)
      requires NoZero(name) && 0 < initialFieldCount <= STRUCT_FIELDS_MAX
      modifies `meta
      ensures meta == old(meta) + MetaEntry(bigEndian, name, ENCODING_STRUCT, initialFieldCount, fieldTag)
      ensures bookmark == |old(meta)| + |name| + 2
    {
      RawAddMeta(name, ENCODING_STRUCT, initialFieldCount, fieldTag);
      bookmark := if fieldTag == 0 then |meta| - 1 else |meta| - 3;
    }

    method SetStructFieldCount(bookmark: nat, fieldCount: byte)
      requires bookmark < |meta| && 0 < fieldCount <= STRUCT_FIELDS_MAX
      modifies `meta
      ensures meta == old(meta)[bookmark := WithCount(old(meta)[bookmark], fieldCount)]
    {
      meta := meta[bookmark := WithCount(meta[bookmark], fieldCount)];
    }

    /**
     * Adds a whole tree, as a caller does: each struct before its members, its count patched in
     * afterwards through the bookmark.
     */
    method AddFields(fields: seq<Field>)
      requires FieldsOk(fields)
      modifies `meta, `data
      ensures meta == old(meta) + MetaAll(bigEndian, fields)
      ensures data == old(data) + DataAll(bigEndian, fields)
      decreases fields
    {
      hide FieldOk, Meta, Data;
      if fields != [] {
        ghost var meta0, data0 := meta, data;
        AddField(fields[0]);
        AddFields(fields[1..]);
        Append3(meta0, Meta(bigEndian, fields[0]), MetaAll(bigEndian, fields[1..]));
        Append3(data0, Data(bigEndian, fields[0]), DataAll(bigEndian, fields[1..]));
      }
    }

    method AddField(f: Field)
      requires FieldOk(f)
      modifies `meta, `data
      ensures meta == old(meta) + Meta(bigEndian, f)
      ensures data == old(data) + Data(bigEndian, f)
      decreases f
    {
      match f
      case Leaf(name, encoding, isArray, format, fieldTag, values) =>
        if isArray {
          AddSequence(name, encoding, values, format, fieldTag);
        } else {
          assert values == [values[0]];
          AddLeaf(name, encoding, format, fieldTag, values[0]);
        }
      case Struct(_, _, _) =>
        AddStructAndMembers(f);
    }

    method AddStructAndMembers(f: Field)
      requires FieldOk(f) && f.Struct?
      modifies `meta, `data
      ensures meta == old(meta) + Meta(bigEndian, f)
      ensures data == old(data) + Data(bigEndian, f)
      decreases f, 0
    {
      hide MetaEntry, MetaAll, DataAll, FieldsOk;
      ghost var before := meta;
      var bookmark := AddStructWithBookmark(f.name, 1, f.tag);
      AddFields(f.fields);
      PatchedCount(bigEndian, before, f.name, 1, |f.fields|, f.tag, MetaAll(bigEndian, f.fields));
      SetStructFieldCount(bookmark, |f.fields|);
    }
  }

  /** A count byte with its flag kept and its value replaced. */
  function WithCount(b: byte, count: byte): byte
    requires count < CHAIN_FLAG
  {
    if HasChainFlag(b) then count + CHAIN_FLAG else count
  }

  lemma Append3(a: bytes, b: bytes, c: bytes)
    ensures a + b + c == a + (b + c)
  {
  }

  /** Overwriting two reserved bytes in the middle. */
  lemma PatchFront(before: bytes, reserved: bytes, patch: bytes, after: bytes)
    requires |reserved| == |patch| == 2
    ensures var s := before + reserved + after;
            s[..|before|] + patch + s[|before| + 2..] == before + (patch + after)
  {
  }

  lemma ScanHere(value: bytes, pos: nat, size: nat)
    requires (size == 1 || size == 2 || size == 4) && pos + size <= |value|
    ensures ScanZero(value, pos, size) == if ZeroChar(value, pos, size) then pos else ScanZero(value, pos + size, size)
  {
  }

  lemma CstrSlice(value: bytes, pos: nat, size: nat)
    requires (size == 1 || size == 2 || size == 4) && pos + size <= |value|
    requires ZeroChar(value, pos, size) && ScanZero(value, 0, size) == pos
    ensures value[..pos + size] == Prefix(size, value) + Zeros(size)
  {
    assert value[..pos + size] == value[..pos] + value[pos..pos + size];
  }

  lemma CstrWhole(value: bytes, size: nat)
    requires size == 1 || size == 2 || size == 4
    ensures ScanZero(value, |value|, size) == |value|
    ensures ScanZero(value, 0, size) == |value| ==> Prefix(size, value) == value
  {
  }

  lemma ValuesDataEmpty(bigEndian: bool, encoding: byte)
    requires IsLeaf(encoding)
    ensures ValuesData(bigEndian, encoding, []) == []
  {
  }

  lemma WholeCharacter(length: nat, pos: nat, size: nat)
    requires (size == 1 || size == 2 || size == 4) && length % size == 0 && pos % size == 0 && pos < length
    ensures pos + size <= length && (pos + size) % size == 0
  {
    if size == 1 {
    } else if size == 2 {
      WholePair(length, pos);
    } else {
      WholeQuadruple(length, pos);
    }
  }

  lemma WholePair(length: nat, pos: nat)
    requires length % 2 == 0 && pos % 2 == 0 && pos < length
    ensures pos + 2 <= length && (pos + 2) % 2 == 0
  {
  }

  lemma WholeQuadruple(length: nat, pos: nat)
    requires length % 4 == 0 && pos % 4 == 0 && pos < length
    ensures pos + 4 <= length && (pos + 4) % 4 == 0
  {
  }

  lemma {:induction false} ValuesDataAppend(bigEndian: bool, encoding: byte, vs: seq<bytes>, v: bytes)
    requires IsLeaf(encoding)
    ensures ValuesData(bigEndian, encoding, vs + [v])
         == ValuesData(bigEndian, encoding, vs) + ValueData(bigEndian, encoding, v)
  {
    if vs == [] {
      assert vs + [v] == [v];
    } else {
      ValuesDataAppend(bigEndian, encoding, vs[1..], v);
      assert (vs + [v])[1..] == vs[1..] + [v];
    }
  }

  /** Patching the count byte gives the entry that would have been written with the final count. */
  lemma PatchedCount(bigEndian: bool, before: bytes, name: bytes, initial: byte, count: byte, fieldTag: u16,
      after: bytes)
    requires 0 < initial <= STRUCT_FIELDS_MAX && 0 < count <= STRUCT_FIELDS_MAX
    ensures var entry := MetaEntry(bigEndian, name, ENCODING_STRUCT, initial, fieldTag);
            var at := |before| + |name| + 2;
            var written := before + entry + after;
            && at < |written|
            && written[at := WithCount(written[at], count)]
               == before + (MetaEntry(bigEndian, name, ENCODING_STRUCT, count, fieldTag) + after)
  {
    var entry := MetaEntry(bigEndian, name, ENCODING_STRUCT, initial, fieldTag);
    var at := |before| + |name| + 2;
    var written := before + entry + after;
    assert written[at] == entry[|name| + 2];
    assert entry[|name| + 2] == MetaType(bigEndian, ENCODING_STRUCT, initial, fieldTag)[1];
  }
}

/**
 * The decoder inverts the encoding of `EventEncoding`: from any state in which the bytes of some
 * fields lie ahead of both cursors, it visits exactly the items of those fields, in order.
 */
module EventDecoding {
  import opened Bytes
  import opened FieldTypes
  import opened EnumeratorModel
  import opened EventEncoding

  /** What `item_info` gives at an item. */
  datatype Item = Item(
    state: EnumeratorState,
    name: bytes,
    encoding: byte, // with array flags
    format: byte,
    tag: u16,
    count: nat,     // elements at the ends of an array, 1 at a scalar
    typeSize: nat,
    value: bytes)

  function Observed(ev: Event, m: Core): Item
    requires Inv(ev, m) && IsItem(m.sub)
  {
    Item(
      StateOf(m.sub),
      ev.data[m.top.name..m.top.name + m.top.nameLen],
      m.ft.encoding,
      m.ft.format,
      m.ft.tag,
      if m.sub == ArrayBegin || m.sub == ArrayEnd then m.top.count else 1,
      m.elementSize,
      ev.data[m.cookedPos..m.cookedPos + m.cookedSize])
  }

  // ---- the items of a field ----

  function TypeSize(encoding: byte): nat {
    if IsFixed(encoding) then FixedSize(encoding) else 0
  }

  /** What a decoder can see of a value: a zero-terminated string ends at its first zero character. */
  function Visible(encoding: byte, v: bytes): bytes
    requires IsLeaf(encoding)
  {
    if IsZString(encoding) then Prefix(CharSize(encoding), v) else v
  }

  function ValueItem(f: Field, v: bytes): Item
    requires f.Leaf? && IsLeaf(f.encoding)
  {
    Item(StateValue, f.name, EncodingOf(f), f.format, f.tag, 1, TypeSize(f.encoding), Visible(f.encoding, v))
  }

  function ValueItems(f: Field, vs: seq<bytes>): seq<Item>
    requires f.Leaf? && IsLeaf(f.encoding)
  {
    if vs == [] then [] else [ValueItem(f, vs[0])] + ValueItems(f, vs[1..])
  }

  function Concat(vs: seq<bytes>): bytes {
    if vs == [] then [] else vs[0] + Concat(vs[1..])
  }

  function ArrayItem(f: Field, state: EnumeratorState, value: bytes): Item
    requires f.Leaf?
  {
    Item(state, f.name, EncodingOf(f), f.format, f.tag, |f.values|, TypeSize(f.encoding), value)
  }

  function StructItem(f: Field, state: EnumeratorState): Item
    requires f.Struct?
  {
    Item(state, f.name, ENCODING_STRUCT, FormatOf(f), f.tag, 1, 0, [])
  }

  /** The items of a field, in the order a decoder must visit them. */
  function Items(f: Field): seq<Item>
    requires FieldOk(f)
  {
    match f
    case Leaf(_, encoding, isArray, _, _, values) =>
      if isArray then
        [ArrayItem(f, StateArrayBegin, if IsFixed(encoding) then Concat(values) else [])]
        + ValueItems(f, values)
        + [ArrayItem(f, StateArrayEnd, [])]
      else [ValueItem(f, values[0])]
    case Struct(_, _, fields) =>
      [StructItem(f, StateStructBegin)] + ItemsAll(fields) + [StructItem(f, StateStructEnd)]
  }

  function ItemsAll(fs: seq<Field>): seq<Item>
    requires FieldsOk(fs)
  {
    if fs == [] then [] else Items(fs[0]) + ItemsAll(fs[1..])
  }

  // ---- visiting ----

  /** From `m`, the states visited show `items`, and the move from the last of them leads to `m'`. */
  ghost predicate Visits(ev: Event, m: Core, items: seq<Item>, m': Core)
    decreases |items|
  {
    hide Inv, Step, Observed;
    if items == [] then m == m'
    else
      && Inv(ev, m) && IsItem(m.sub)
      && Observed(ev, m) == items[0]
      && Visits(ev, Step(ev, m), items[1..], m')
  }

  lemma {:induction false} VisitsJoin(ev: Event, m: Core, a: seq<Item>, m1: Core, b: seq<Item>, m2: Core)
    requires Visits(ev, m, a, m1) && Visits(ev, m1, b, m2)
    ensures Visits(ev, m, a + b, m2)
    decreases |a|
  {
    hide Inv, Step, Observed;
    if a == [] {
      assert a + b == b;
    } else {
      VisitsJoin(ev, Step(ev, m), a[1..], m1, b, m2);
      assert (a + b)[1..] == a[1..] + b;
    }
  }

  lemma VisitsOne(ev: Event, m: Core, item: Item)
    requires Inv(ev, m) && IsItem(m.sub) && Observed(ev, m) == item
    ensures Visits(ev, m, [item], Step(ev, m))
  {
    hide Inv, Step, Observed;
    assert [item][1..] == [];
  }

  // ---- reading a field's declaration ----

  lemma NameEndsAt(ev: Event, pos: nat, name: bytes)
    requires ev.Valid() && NoZero(name) && At(ev.data, pos, name + [0]) && pos + |name| < ev.metaEnd
    ensures NameEnd(ev, pos) == pos + |name|
  {
    AtIndex(ev.data, pos, name + [0], |name|);
    forall i | pos <= i < pos + |name| ensures ev.data[i] != 0 {
      AtIndex(ev.data, pos, name + [0], i - pos);
    }
  }

  lemma TypeReads(ev: Event, pos: nat, encoding: byte, format: byte, tag: u16)
    requires ev.Valid() && encoding < CHAIN_FLAG && format < CHAIN_FLAG
    requires At(ev.data, pos, MetaType(ev.bigEndian, encoding, format, tag))
    requires pos + |MetaType(ev.bigEndian, encoding, format, tag)| <= ev.metaEnd
    ensures ReadType(ev, pos)
         == (FieldType(encoding, format, tag), pos + |MetaType(ev.bigEndian, encoding, format, tag)|)
  {
    hide ReadU16;
    var t := MetaType(ev.bigEndian, encoding, format, tag);
    AtIndex(ev.data, pos, t, 0);
    if tag != 0 {
      AtIndex(ev.data, pos, t, 1);
      AtSplit(ev.data, pos, [WithChainFlag(encoding), WithChainFlag(format)], WriteU16(ev.bigEndian, tag));
      ReadWritten(ev.bigEndian, ev.data, pos + 2, tag);
    } else if format != 0 {
      AtIndex(ev.data, pos, t, 1);
    }
  }

  /** A declaration in the metadata is read back as it was written. */
  lemma EntryReads(ev: Event, top: Frame, name: bytes, encoding: byte, format: byte, tag: u16)
    requires ev.Valid() && ev.metaStart < top.name
    requires NoZero(name) && encoding < CHAIN_FLAG && format < CHAIN_FLAG
    requires var entry := MetaEntry(ev.bigEndian, name, encoding, format, tag);
             At(ev.data, top.name, entry) && top.name + |entry| <= ev.metaEnd
    ensures var entry := MetaEntry(ev.bigEndian, name, encoding, format, tag);
            ReadField(ev, top)
            == (FieldType(encoding, format, tag), top.(nameLen := |name|, next := top.name + |entry|))
    ensures ev.data[top.name..top.name + |name|] == name
  {
    var typ := MetaType(ev.bigEndian, encoding, format, tag);
    TypeNotEmpty(ev.bigEndian, encoding, format, tag);
    hide MetaType, ReadType, NameEnd, NoZero;
    AtSplit(ev.data, top.name, name + [0], typ);
    NameEndsAt(ev, top.name, name);
    TypeReads(ev, top.name + |name| + 1, encoding, format, tag);
    AtSplit(ev.data, top.name, name, [0]);
  }

  lemma TypeNotEmpty(bigEndian: bool, encoding: byte, format: byte, tag: u16)
    ensures |MetaType(bigEndian, encoding, format, tag)| >= 1
  {
  }

  // ---- placed fields ----

  /** Metadata and payload bytes lie ahead of the cursors of a machine about to read a field. */
  ghost predicate Placed(ev: Event, n: Core, meta: bytes, data: bytes) {
    && CanRead(ev, n) && n.top.remaining <= TOP_LEVEL_FIELD_LIMIT
    && At(ev.data, n.top.next, meta) && n.top.next + |meta| <= ev.metaEnd
    && At(ev.data, n.pos, data)
  }

  /** The machine once `meta` and `data` are passed: cursors moved, stack as before. */
  ghost predicate PassedTo(ev: Event, n: Core, meta: bytes, data: bytes, fields: nat, n': Core) {
    && CanRead(ev, n')
    && n'.stack == n.stack
    && n'.top.next == n.top.next + |meta|
    && n'.pos == n.pos + |data|
    && n'.top.remaining == n.top.remaining - fields
  }

  function Entry(bigEndian: bool, f: Field): bytes {
    MetaEntry(bigEndian, f.name, EncodingOf(f), FormatOf(f), f.tag)
  }

  function TypeFor(f: Field): FieldType { FieldType(EncodingOf(f), FormatOf(f), f.tag) }

  /** The machine once the declaration of `f` has been read. */
  function Entered(ev: Event, n: Core, f: Field): Core
    requires n.top.remaining > 0
  {
    var top := n.top.(remaining := n.top.remaining - 1, index := 0, name := n.top.next);
    n.(ft := TypeFor(f), top := top.(nameLen := |f.name|, next := n.top.next + |Entry(ev.bigEndian, f)|))
  }

  /** The top frame is on the field `f`. */
  ghost predicate On(ev: Event, m: Core, f: Field) {
    && m.ft == TypeFor(f)
    && m.top.nameLen == |f.name|
    && At(ev.data, m.top.name, f.name)
  }

  lemma FieldEntered(ev: Event, n: Core, f: Field, data: bytes)
    requires Placed(ev, n, Entry(ev.bigEndian, f), data) && FieldOk(f) && n.top.remaining > 0
    ensures NextProperty(ev, n) == FieldRead(ev, Entered(ev, n, f))
    ensures On(ev, Entered(ev, n, f), f)
    ensures FieldIsRead(ev, Entered(ev, n, f))
  {
    hide StackOk, FieldRead, MetaEntry, ReadType, FieldsOk, EncodingOf, FormatOf, NameEnd;
    var top := n.top.(remaining := n.top.remaining - 1, index := 0, name := n.top.next);
    EncodingFits(f);
    EntryNotEmpty(ev.bigEndian, f);
    EntryReads(ev, top, f.name, EncodingOf(f), FormatOf(f), f.tag);
    ReadFieldOnField(ev, top);
  }

  lemma EncodingFits(f: Field)
    requires FieldOk(f)
    ensures 0 < EncodingOf(f) < CHAIN_FLAG && FormatOf(f) < CHAIN_FLAG
    ensures f.Leaf? ==> IsArray(EncodingOf(f)) == f.isArray == IsVariableLengthArray(EncodingOf(f))
    ensures f.Leaf? ==> WithoutFlags(EncodingOf(f)) == f.encoding && EncodingOf(f) != ENCODING_STRUCT
    ensures f.Struct? ==> 0 < FormatOf(f) == |f.fields| && EncodingOf(f) == ENCODING_STRUCT && !IsArray(EncodingOf(f))
  {
  }

  lemma EntryNotEmpty(bigEndian: bool, f: Field)
    ensures |Entry(bigEndian, f)| > 0
  {
  }

  // ---- values ----

  lemma ScanGoesOn(data: bytes, pos: nat, v: bytes, size: nat, k: nat, end: nat)
    requires size == 1 || size == 2 || size == 4
    requires k < end <= |v| && ScanZero(v, k, size) == end && At(data, pos, v[..end])
    ensures k + size <= end && ScanZero(v, k + size, size) == end
    ensures pos + k + size <= |data| && ScanZero(data, pos + k, size) == ScanZero(data, pos + k + size, size)
  {
    assert pos + end <= |data|;
    hide ScanZero, At, ZeroChar;
    ScanNext(v, k, size);
    SameChar(data, pos, v, k, size, end);
    ScanNext(data, pos + k, size);
  }

  /** The scan finds in the event the zero character that ends the string at `pos`. */
  lemma {:induction false} ScanPlaced(data: bytes, pos: nat, v: bytes, size: nat, k: nat, end: nat)
    requires size == 1 || size == 2 || size == 4
    requires k <= end <= |v| && ScanZero(v, k, size) == end
    requires At(data, pos, v[..end]) && pos + end + size <= |data| && ZeroChar(data, pos + end, size)
    ensures ScanZero(data, pos + k, size) == pos + end
    decreases end - k
  {
    hide ScanZero, At, ZeroChar;
    if k == end {
      ScanNext(data, pos + end, size);
    } else {
      ScanGoesOn(data, pos, v, size, k, end);
      ScanPlaced(data, pos, v, size, k + size, end);
    }
  }

  lemma SameChar(data: bytes, pos: nat, v: bytes, k: nat, size: nat, end: nat)
    requires k + size <= end <= |v| && At(data, pos, v[..end])
    ensures ZeroChar(data, pos + k, size) == ZeroChar(v, k, size)
  {
    hide Zeros;
    AtSlice(data, pos, v[..end], k, k + size);
    assert v[k..k + size] == v[..end][k..k + size];
  }

  /** The value item that `m` shows: its bytes and how far the payload cursor is to move. */
  ghost predicate Shows(ev: Event, m: Core, encoding: byte, v: bytes)
    requires IsLeaf(encoding)
  {
    && m.elementSize == TypeSize(encoding)
    && m.rawSize == |ValueData(ev.bigEndian, encoding, v)|
    && At(ev.data, m.cookedPos, Visible(encoding, v))
    && m.cookedSize == |Visible(encoding, v)|
  }

  lemma FixedStarts(ev: Event, m: Core, v: bytes)
    requires ev.Valid() && m.pos <= |ev.data|
    requires var e := WithoutFlags(m.ft.encoding);
             IsFixed(e) && ValueOk(e, v) && At(ev.data, m.pos, ValueData(ev.bigEndian, e, v))
    ensures StartValue(ev, m).sub == m.sub
    ensures Shows(ev, StartValue(ev, m), WithoutFlags(m.ft.encoding), v)
  {
    hide WithoutFlags, FixedSize;
  }

  lemma ZStringStarts(ev: Event, m: Core, v: bytes)
    requires ev.Valid() && m.pos <= |ev.data|
    requires var e := WithoutFlags(m.ft.encoding);
             IsZString(e) && ValueOk(e, v) && At(ev.data, m.pos, ValueData(ev.bigEndian, e, v))
    ensures StartValue(ev, m).sub == m.sub
    ensures Shows(ev, StartValue(ev, m), WithoutFlags(m.ft.encoding), v)
  {
    hide WithoutFlags, FixedSize, CharSize, ScanZero;
    var size := CharSize(WithoutFlags(m.ft.encoding));
    AtSplit(ev.data, m.pos, Prefix(size, v), Zeros(size));
    ScanPlaced(ev.data, m.pos, v, size, 0, |Prefix(size, v)|);
  }

  lemma CountedStarts(ev: Event, m: Core, v: bytes)
    requires ev.Valid() && m.pos <= |ev.data|
    requires var e := WithoutFlags(m.ft.encoding);
             IsCounted(e) && ValueOk(e, v) && ValueUncut(e, v)
             && At(ev.data, m.pos, ValueData(ev.bigEndian, e, v))
    ensures StartValue(ev, m).sub == m.sub
    ensures Shows(ev, StartValue(ev, m), WithoutFlags(m.ft.encoding), v)
  {
    hide WithoutFlags, FixedSize, ScanZero, ReadU16;
    var size := CharSize(WithoutFlags(m.ft.encoding));
    var n := |v| / size;
    assert n * size == |v|;
    AtSplit(ev.data, m.pos, WriteU16(ev.bigEndian, n), v);
    ReadWritten(ev.bigEndian, ev.data, m.pos, n);
  }

  lemma ValueStarts(ev: Event, m: Core, v: bytes)
    requires ev.Valid() && m.pos <= |ev.data|
    requires var e := WithoutFlags(m.ft.encoding);
             IsLeaf(e) && ValueOk(e, v) && ValueUncut(e, v)
             && At(ev.data, m.pos, ValueData(ev.bigEndian, e, v))
    ensures StartValue(ev, m).sub == m.sub
    ensures Shows(ev, StartValue(ev, m), WithoutFlags(m.ft.encoding), v)
  {
    hide WithoutFlags, StartValue, ValueData, Shows, ValueOk, ValueUncut;
    var e := WithoutFlags(m.ft.encoding);
    if IsFixed(e) {
      FixedStarts(ev, m, v);
    } else if IsZString(e) {
      ZStringStarts(ev, m, v);
    } else {
      CountedStarts(ev, m, v);
    }
  }

  lemma ValueObserved(ev: Event, m: Core, f: Field, v: bytes)
    requires Inv(ev, m) && StateOf(m.sub) == StateValue
    requires FieldOk(f) && f.Leaf? && On(ev, m, f) && Shows(ev, m, f.encoding, v)
    ensures Observed(ev, m) == ValueItem(f, v)
  {
    hide Inv, Visible, TypeSize, ValueData;
  }

  // ---- one value ----

  lemma DecodeValue(ev: Event, n: Core, f: Field) returns (n': Core)
    requires FieldOk(f) && Uncut(f) && f.Leaf? && !f.isArray && n.top.remaining > 0
    requires Placed(ev, n, Meta(ev.bigEndian, f), Data(ev.bigEndian, f))
    ensures PassedTo(ev, n, Meta(ev.bigEndian, f), Data(ev.bigEndian, f), 1, n')
    ensures Visits(ev, NextProperty(ev, n), Items(f), NextProperty(ev, n'))
  {
    hide StackOk, ReadType, MetaEntry, ValueData, StartValue, EncodingOf, Visible, TypeSize, Observed, NextProperty,
      WithoutFlags, IsArray, OnField, NameEnd, At, Inv, Step;
    var v := f.values[0];
    assert Meta(ev.bigEndian, f) == Entry(ev.bigEndian, f);
    EncodingFits(f);
    FieldEntered(ev, n, f, Data(ev.bigEndian, f));
    var m0 := Entered(ev, n, f);
    FieldReadInv(ev, m0);
    var m1 := m0.(top := m0.top.(count := 1), sub := ValueScalar);
    var m := StartValue(ev, m1);
    ValueStarts(ev, m1, v);
    StartKeepsFrames(ev, m1);
    ValueObserved(ev, m, f, v);
    VisitsOne(ev, m, ValueItem(f, v));
    n' := m.(pos := m.pos + m.rawSize);
    LeaveScalar(ev, m);
  }

  // ---- arrays ----

  lemma {:induction false} FixedIsConcat(bigEndian: bool, encoding: byte, vs: seq<bytes>)
    requires IsLeaf(encoding) && IsFixed(encoding) && forall v :: v in vs ==> ValueOk(encoding, v)
    ensures ValuesData(bigEndian, encoding, vs) == Concat(vs)
    ensures |Concat(vs)| == |vs| * FixedSize(encoding)
  {
    if vs != [] {
      FixedIsConcat(bigEndian, encoding, vs[1..]);
      assert ValueOk(encoding, vs[0]);
      assert (|vs[1..]| + 1) * FixedSize(encoding) == |vs[1..]| * FixedSize(encoding) + FixedSize(encoding);
    }
  }

  /** An element of an array of `f`, with the elements from it on lying ahead of the payload cursor. */
  ghost predicate AtElement(ev: Event, m: Core, f: Field, vs: seq<bytes>)
    requires f.Leaf? && IsLeaf(f.encoding)
  {
    && Inv(ev, m) && On(ev, m, f)
    && m.sub == (if IsFixed(f.encoding) then ValueSimpleArrayElement else ValueComplexArrayElement)
    && vs != [] && m.top.count - m.top.index == |vs|
    && (forall v :: v in vs ==> ValueOk(f.encoding, v) && ValueUncut(f.encoding, v))
    && At(ev.data, m.pos, ValuesData(ev.bigEndian, f.encoding, vs))
    && Shows(ev, m, f.encoding, vs[0])
  }

  /** The end of the array, `values` having been passed since `m`. */
  ghost predicate AtEnd(ev: Event, m: Core, f: Field, passed: nat, e: Core) {
    && Inv(ev, e) && On(ev, e, f) && e.sub == ArrayEnd
    && e.stack == m.stack && e.top == m.top.(index := m.top.count)
    && e.pos == m.pos + passed
  }

  lemma ValuesAhead(ev: Event, pos: nat, encoding: byte, vs: seq<bytes>)
    requires IsLeaf(encoding) && |vs| > 0 && At(ev.data, pos, ValuesData(ev.bigEndian, encoding, vs))
    ensures At(ev.data, pos, ValueData(ev.bigEndian, encoding, vs[0]))
    ensures At(ev.data, pos + |ValueData(ev.bigEndian, encoding, vs[0])|, ValuesData(ev.bigEndian, encoding, vs[1..]))
  {
    hide ValueData;
    AtSplit(ev.data, pos, ValueData(ev.bigEndian, encoding, vs[0]), ValuesData(ev.bigEndian, encoding, vs[1..]));
  }

  lemma FixedShows(ev: Event, m: Core, encoding: byte, v: bytes)
    requires IsLeaf(encoding) && IsFixed(encoding) && ValueOk(encoding, v)
    requires m.elementSize == m.rawSize == m.cookedSize == FixedSize(encoding)
    requires At(ev.data, m.cookedPos, ValueData(ev.bigEndian, encoding, v))
    ensures Shows(ev, m, encoding, v)
  {
  }

  /** The move from an element that is not the last. */
  lemma NextElementDecodes(ev: Event, m: Core, f: Field, vs: seq<bytes>)
    requires FieldOk(f) && f.Leaf? && f.isArray && AtElement(ev, m, f, vs) && |vs| > 1
    ensures var m' := Step(ev, m);
            && AtElement(ev, m', f, vs[1..])
            && m'.stack == m.stack && m'.top == m.top.(index := m.top.index + 1)
            && m'.pos == m.pos + |ValueData(ev.bigEndian, f.encoding, vs[0])|
  {
    hide CanRead, ReadType, ValueData, StartValue, EncodingOf, Visible, NextProperty, WithoutFlags,
      IsArray, OnField, Inv, ValueOk, ValueUncut, Step, At, ValuesData, FixedSize;
    EncodingFits(f);
    StepInv(ev, m);
    ElementMoves(ev, m);
    ValuesAhead(ev, m.pos, f.encoding, vs);
    var m1 := NextElement(m);
    assert vs[1..][0] == vs[1];
    ValuesAhead(ev, m1.pos, f.encoding, vs[1..]);
    if m.sub == ValueComplexArrayElement {
      ValueStarts(ev, m1, vs[1]);
      StartKeepsFrames(ev, m1);
    } else {
      FixedSizes(ev, m, f, vs[0]);
      FixedShows(ev, m1.(cookedPos := m1.pos), f.encoding, vs[1]);
    }
  }

  lemma FixedSizes(ev: Event, m: Core, f: Field, v: bytes)
    requires f.Leaf? && IsLeaf(f.encoding) && IsFixed(f.encoding) && ValueOk(f.encoding, v)
    requires Shows(ev, m, f.encoding, v)
    ensures m.elementSize == m.rawSize == m.cookedSize == FixedSize(f.encoding)
  {
  }

  /** The move from the last element. */
  lemma LastElementDecodes(ev: Event, m: Core, f: Field, vs: seq<bytes>)
    requires FieldOk(f) && f.Leaf? && f.isArray && AtElement(ev, m, f, vs) && |vs| == 1
    ensures AtEnd(ev, m, f, |ValueData(ev.bigEndian, f.encoding, vs[0])|, Step(ev, m))
  {
    hide CanRead, ReadType, ValueData, StartValue, EncodingOf, Visible, NextProperty, WithoutFlags,
      IsArray, OnField, Inv, ValueOk, ValueUncut, Step, At, ValuesData, FixedSize;
    StepInv(ev, m);
    ElementMoves(ev, m);
  }

  /** From any element on, the elements are visited in order up to the end of the array. */
  lemma {:induction false} DecodeElements(ev: Event, m: Core, f: Field, vs: seq<bytes>) returns (e: Core)
    requires FieldOk(f) && f.Leaf? && f.isArray && AtElement(ev, m, f, vs)
    ensures AtEnd(ev, m, f, |ValuesData(ev.bigEndian, f.encoding, vs)|, e)
    ensures Visits(ev, m, ValueItems(f, vs), e)
    decreases |vs|
  {
    hide CanRead, ValueData, EncodingOf, Visible, TypeSize, NextProperty, WithoutFlags, Inv, Step, At, Observed,
      FieldsOk, ValueItem, Shows;
    ValueObserved(ev, m, f, vs[0]);
    VisitsOne(ev, m, ValueItem(f, vs[0]));
    if |vs| == 1 {
      LastElementDecodes(ev, m, f, vs);
      e := Step(ev, m);
      assert ValueItems(f, vs) == [ValueItem(f, vs[0])];
    } else {
      NextElementDecodes(ev, m, f, vs);
      e := DecodeElements(ev, Step(ev, m), f, vs[1..]);
      VisitsJoin(ev, m, [ValueItem(f, vs[0])], Step(ev, m), ValueItems(f, vs[1..]), e);
    }
  }

  /** The start of the array `f`, its elements lying ahead of the payload cursor. */
  ghost predicate AtBegin(ev: Event, m: Core, f: Field)
    requires f.Leaf? && IsLeaf(f.encoding)
  {
    && Inv(ev, m) && On(ev, m, f) && m.sub == ArrayBegin
    && m.top.count == |f.values|
    && At(ev.data, m.pos, ValuesData(ev.bigEndian, f.encoding, f.values))
  }

  /** The payload of an uncut array: its count, then all its values. */
  lemma ArrayData(bigEndian: bool, f: Field)
    requires FieldOk(f) && Uncut(f) && f.Leaf? && f.isArray
    ensures IsLeaf(f.encoding) && |f.values| <= COUNT_MAX
    ensures Data(bigEndian, f) == WriteU16(bigEndian, |f.values|) + ValuesData(bigEndian, f.encoding, f.values)
  {
    assert f.values[..|f.values|] == f.values;
  }

  lemma CountIsRead(ev: Event, m: Core, f: Field)
    requires ev.Valid() && m.pos <= |ev.data| && m.top.next <= ev.metaEnd
    requires FieldOk(f) && Uncut(f) && f.Leaf? && f.isArray && m.ft == TypeFor(f)
    requires At(ev.data, m.pos, Data(ev.bigEndian, f))
    ensures m.pos + 2 <= |ev.data| && |f.values| <= COUNT_MAX
    ensures FieldRead(ev, m) == StartArray(ev, m.(top := m.top.(count := |f.values|), pos := m.pos + 2))
    ensures At(ev.data, m.pos + 2, ValuesData(ev.bigEndian, f.encoding, f.values))
  {
    hide ValuesData, EncodingOf, IsArray, IsVariableLengthArray, ReadU16, StartArray, StartValue, FieldOk, Uncut, Data;
    EncodingFits(f);
    ArrayData(ev.bigEndian, f);
    AtSplit(ev.data, m.pos, WriteU16(ev.bigEndian, |f.values|), ValuesData(ev.bigEndian, f.encoding, f.values));
    ReadWritten(ev.bigEndian, ev.data, m.pos, |f.values|);
  }

  /** Reading the declaration of an array reads its count from the payload. */
  lemma ArrayBegins(ev: Event, n: Core, f: Field)
    requires FieldOk(f) && Uncut(f) && f.Leaf? && f.isArray && n.top.remaining > 0
    requires Placed(ev, n, Meta(ev.bigEndian, f), Data(ev.bigEndian, f))
    ensures |f.values| <= COUNT_MAX
    ensures var m := NextProperty(ev, n);
            && AtBegin(ev, m, f)
            && m.stack == n.stack && m.pos == n.pos + 2
            && m.top == Entered(ev, n, f).top.(count := |f.values|)
  {
    hide StackOk, ReadType, MetaEntry, ValuesData, EncodingOf, NextProperty, WithoutFlags, OnField, NameEnd,
      Inv, FieldsOk, StartArray, FieldRead, Data, At;
    assert Meta(ev.bigEndian, f) == Entry(ev.bigEndian, f);
    FieldEntered(ev, n, f, Data(ev.bigEndian, f));
    var m0 := Entered(ev, n, f);
    FieldReadInv(ev, m0);
    CountIsRead(ev, m0, f);
    var m1 := m0.(top := m0.top.(count := |f.values|), pos := m0.pos + 2);
    StartKeepsFrames(ev, m1);
    ArrayStarts(ev, m1, f);
  }

  lemma ArrayStarts(ev: Event, m: Core, f: Field)
    requires ev.Valid() && m.pos <= |ev.data|
    requires FieldOk(f) && Uncut(f) && f.Leaf? && f.isArray && m.ft.encoding == EncodingOf(f)
    requires m.top.count == |f.values| && At(ev.data, m.pos, ValuesData(ev.bigEndian, f.encoding, f.values))
    ensures StartArray(ev, m).sub == ArrayBegin
  {
    hide ValuesData, EncodingOf, WithoutFlags, FixedSize, ValueOk;
    EncodingFits(f);
    if IsFixed(f.encoding) {
      FixedIsConcat(ev.bigEndian, f.encoding, f.values);
    }
  }

  lemma BeginObserved(ev: Event, m: Core, f: Field)
    requires FieldOk(f) && f.Leaf? && f.isArray && AtBegin(ev, m, f)
    ensures Observed(ev, m) == ArrayItem(f, StateArrayBegin, if IsFixed(f.encoding) then Concat(f.values) else [])
  {
    hide CanRead, OnField, EncodingOf, WithoutFlags, FixedSize, ValueOk, ValuesData, Concat, ReadType;
    EncodingFits(f);
    if IsFixed(f.encoding) {
      FixedIsConcat(ev.bigEndian, f.encoding, f.values);
    }
  }

  lemma EndObserved(ev: Event, m: Core, f: Field, passed: nat, e: Core)
    requires FieldOk(f) && f.Leaf? && f.isArray && AtEnd(ev, m, f, passed, e) && m.top.count == |f.values|
    ensures Observed(ev, e) == ArrayItem(f, StateArrayEnd, [])
    ensures CanRead(ev, e) && Step(ev, e) == NextProperty(ev, e)
  {
    hide StackOk, OnField, EncodingOf, WithoutFlags, FixedSize, ValueOk, ReadType, NextProperty;
    EncodingFits(f);
  }

  /** The move from the start of an array: to its first element, or to its end. */
  lemma BeginMoves(ev: Event, m: Core, f: Field)
    requires FieldOk(f) && Uncut(f) && f.Leaf? && f.isArray && AtBegin(ev, m, f)
    ensures var m' := Step(ev, m);
            if f.values == [] then AtEnd(ev, m, f, 0, m')
            else AtElement(ev, m', f, f.values) && m'.stack == m.stack && m'.top == m.top && m'.pos == m.pos
  {
    hide CanRead, ReadType, EncodingOf, WithoutFlags, IsArray, OnField, Inv, ValueOk, ValueUncut, FixedSize, StartValue,
      ValuesData, ValueData, Visible, FieldsOk, Step, At;
    EncodingFits(f);
    StepInv(ev, m);
    BeginStep(ev, m);
    if f.values != [] {
      ValuesAhead(ev, m.pos, f.encoding, f.values);
      if IsFixed(f.encoding) {
        FixedShows(ev, Step(ev, m), f.encoding, f.values[0]);
      } else {
        var m1 := m.(sub := ValueComplexArrayElement);
        ValueStarts(ev, m1, f.values[0]);
        StartKeepsFrames(ev, m1);
      }
    }
  }

  lemma BeginStep(ev: Event, m: Core)
    requires Inv(ev, m) && m.sub == ArrayBegin && WithoutFlags(m.ft.encoding) != ENCODING_STRUCT
    ensures ev.Valid() && m.pos <= |ev.data| && m.top.index == 0
    ensures IsFixed(WithoutFlags(m.ft.encoding)) ==> m.elementSize == FixedSize(WithoutFlags(m.ft.encoding))
    ensures Step(ev, m)
         == if m.top.count == 0 then EndState(m, ArrayEnd)
            else if IsFixed(WithoutFlags(m.ft.encoding)) then
              m.(cookedSize := m.elementSize, rawSize := m.elementSize, cookedPos := m.pos,
                  sub := ValueSimpleArrayElement)
            else StartValue(ev, m.(sub := ValueComplexArrayElement))
  {
    hide StackOk, OnField, ReadType, NextProperty, StartValue, WithoutFlags;
  }

  lemma DecodeArray(ev: Event, n: Core, f: Field) returns (e: Core)
    requires FieldOk(f) && Uncut(f) && f.Leaf? && f.isArray && n.top.remaining > 0
    requires Placed(ev, n, Meta(ev.bigEndian, f), Data(ev.bigEndian, f))
    ensures PassedTo(ev, n, Meta(ev.bigEndian, f), Data(ev.bigEndian, f), 1, e)
    ensures Visits(ev, NextProperty(ev, n), Items(f), NextProperty(ev, e))
  {
    hide StackOk, ReadType, MetaEntry, ValuesData, ValueData, EncodingOf, NextProperty, WithoutFlags, IsArray, OnField,
      Inv, FieldsOk, Step, Observed, At, Visits, ValueItems, ArrayItem, Concat, On;
    assert Meta(ev.bigEndian, f) == Entry(ev.bigEndian, f);
    ArrayData(ev.bigEndian, f);
    ArrayBegins(ev, n, f);
    var m := NextProperty(ev, n);
    BeginObserved(ev, m, f);
    BeginMoves(ev, m, f);
    var begin := ArrayItem(f, StateArrayBegin, if IsFixed(f.encoding) then Concat(f.values) else []);
    VisitsOne(ev, m, begin);
    if f.values == [] {
      e := Step(ev, m);
      VisitsNone(ev, e, f);
    } else {
      e := DecodeElements(ev, Step(ev, m), f, f.values);
    }
    EndObserved(ev, m, f, |ValuesData(ev.bigEndian, f.encoding, f.values)|, e);
    VisitsOne(ev, e, ArrayItem(f, StateArrayEnd, []));
    VisitsJoin(ev, m, [begin], Step(ev, m), ValueItems(f, f.values), e);
    VisitsJoin(ev, m, [begin] + ValueItems(f, f.values), e, [ArrayItem(f, StateArrayEnd, [])], Step(ev, e));
  }

  lemma VisitsNone(ev: Event, m: Core, f: Field)
    requires f.Leaf? && IsLeaf(f.encoding)
    ensures Visits(ev, m, ValueItems(f, []), m)
    ensures ValuesData(ev.bigEndian, f.encoding, []) == []
  {
  }

  // ---- structs ----

  /** The struct `f` begins: its declaration has been read, its members lie ahead. */
  lemma StructBegins(ev: Event, n: Core, f: Field)
    requires FieldOk(f) && f.Struct? && n.top.remaining > 0
    requires Placed(ev, n, Meta(ev.bigEndian, f), Data(ev.bigEndian, f))
    ensures var m := NextProperty(ev, n);
            && Inv(ev, m) && On(ev, m, f) && m.sub == StructBegin
            && m.stack == n.stack && m.pos == n.pos
            && m.top == Entered(ev, n, f).top.(count := 1)
    ensures At(ev.data, Entered(ev, n, f).top.next, MetaAll(ev.bigEndian, f.fields))
  {
    hide StackOk, ReadType, MetaEntry, EncodingOf, NextProperty, WithoutFlags, IsArray, OnField, NameEnd, Inv, FieldsOk,
      MetaAll, Data, FieldRead;
    AtSplit(ev.data, n.top.next, Entry(ev.bigEndian, f), MetaAll(ev.bigEndian, f.fields));
    EncodingFits(f);
    FieldEntered(ev, n, f, Data(ev.bigEndian, f));
    FieldReadInv(ev, Entered(ev, n, f));
    StructIsRead(ev, Entered(ev, n, f), f);
  }

  lemma StructIsRead(ev: Event, m: Core, f: Field)
    requires ev.Valid() && m.pos <= |ev.data| && m.top.next <= ev.metaEnd
    requires FieldOk(f) && f.Struct? && m.ft == TypeFor(f)
    ensures FieldRead(ev, m) == StartStruct(m.(top := m.top.(count := 1)))
  {
    hide FieldsOk, EncodingOf, FormatOf, IsArray;
    EncodingFits(f);
  }

  lemma StructObserved(ev: Event, m: Core, f: Field)
    requires FieldOk(f) && f.Struct? && Inv(ev, m) && On(ev, m, f) && (m.sub == StructBegin || m.sub == StructEnd)
    ensures Observed(ev, m) == StructItem(f, StateOf(m.sub))
  {
    hide CanRead, OnField, WithoutFlags, ReadType, FieldsOk;
  }

  /** The move into a struct. */
  lemma StructEnters(ev: Event, m: Core, f: Field)
    requires FieldOk(f) && f.Struct? && Inv(ev, m) && On(ev, m, f) && m.sub == StructBegin
    requires |m.stack| < STRUCT_NEST_LIMIT
    ensures CanRead(ev, PushStruct(m)) && Step(ev, m) == NextProperty(ev, PushStruct(m))
    ensures PushStruct(m).top.remaining == |f.fields|
  {
    hide Inv, CanRead, Step, NextProperty, FieldsOk, FormatOf, EncodingOf;
    EncodingFits(f);
    EnterMoves(ev, m);
  }

  /** The end of a struct: all members read, the frame that holds it is back on top. */
  lemma StructEnds(ev: Event, m: Core, f: Field, n: Core)
    requires FieldOk(f) && f.Struct? && Inv(ev, m) && On(ev, m, f) && m.sub == StructBegin && m.top.count == 1
    requires CanRead(ev, n) && n.top.remaining == 0 && n.stack == m.stack + [m.top]
    ensures var e := NextProperty(ev, n);
            && Inv(ev, e) && On(ev, e, f) && e.sub == StructEnd
            && e.stack == m.stack && e.pos == n.pos && e.top == m.top.(next := n.top.next)
  {
    hide StackOk, ReadType, FieldsOk, EncodingOf;
    NextPropertyInv(ev, n);
    assert n.stack[..|n.stack| - 1] == m.stack;
  }

  /** The move out of a struct. */
  lemma StructLeaves(ev: Event, e: Core, f: Field)
    requires FieldOk(f) && f.Struct? && Inv(ev, e) && On(ev, e, f) && e.sub == StructEnd && e.top.count == 1
    ensures var n := e.(top := e.top.(index := e.top.index + 1));
            CanRead(ev, n) && Step(ev, e) == NextProperty(ev, n)
  {
    hide StackOk, ReadType, FieldsOk, NextProperty, OnField;
  }

  // ---- trees ----

  /** From a state about to read the field `f`, exactly the items of `f` are visited, in order. */
  lemma {:induction false} DecodeField(ev: Event, n: Core, f: Field) returns (n': Core)
    requires FieldOk(f) && Uncut(f) && n.top.remaining > 0
    requires |n.stack| + Depth(f) <= STRUCT_NEST_LIMIT
    requires Placed(ev, n, Meta(ev.bigEndian, f), Data(ev.bigEndian, f))
    ensures PassedTo(ev, n, Meta(ev.bigEndian, f), Data(ev.bigEndian, f), 1, n')
    ensures Visits(ev, NextProperty(ev, n), Items(f), NextProperty(ev, n'))
    decreases f
  {
    hide CanRead, MetaEntry, EncodingOf, NextProperty, WithoutFlags, IsArray, OnField, Inv, Step, At,
      Observed, Visits, StructItem, On, MetaAll, DataAll, ItemsAll, AllUncut, FieldsOk, DepthAll;
    if f.Leaf? {
      if f.isArray {
        n' := DecodeArray(ev, n, f);
      } else {
        n' := DecodeValue(ev, n, f);
      }
    } else {
      var m := NextProperty(ev, n);
      StructBegins(ev, n, f);
      StructObserved(ev, m, f);
      VisitsOne(ev, m, StructItem(f, StateStructBegin));
      StructEnters(ev, m, f);
      var n1 := PushStruct(m);
      var n2 := DecodeFields(ev, n1, f.fields);
      StructEnds(ev, m, f, n2);
      var e := NextProperty(ev, n2);
      StructObserved(ev, e, f);
      VisitsOne(ev, e, StructItem(f, StateStructEnd));
      StructLeaves(ev, e, f);
      VisitsJoin(ev, m, [StructItem(f, StateStructBegin)], NextProperty(ev, n1), ItemsAll(f.fields), e);
      VisitsJoin(ev, m, [StructItem(f, StateStructBegin)] + ItemsAll(f.fields), e,
                 [StructItem(f, StateStructEnd)], Step(ev, e));
      n' := e.(top := e.top.(index := e.top.index + 1));
    }
  }

  /** The same for a list of fields. */
  lemma {:induction false} DecodeFields(ev: Event, n: Core, fs: seq<Field>) returns (n': Core)
    requires FieldsOk(fs) && AllUncut(fs) && n.top.remaining >= |fs|
    requires |n.stack| + DepthAll(fs) <= STRUCT_NEST_LIMIT
    requires Placed(ev, n, MetaAll(ev.bigEndian, fs), DataAll(ev.bigEndian, fs))
    ensures PassedTo(ev, n, MetaAll(ev.bigEndian, fs), DataAll(ev.bigEndian, fs), |fs|, n')
    ensures Visits(ev, NextProperty(ev, n), ItemsAll(fs), NextProperty(ev, n'))
    decreases fs
  {
    hide CanRead, NextProperty, Inv, Step, At, Observed, Meta, Data, Items, Uncut, FieldOk, Depth;
    if fs == [] {
      n' := n;
    } else {
      hide Visits;
      AtSplit(ev.data, n.top.next, Meta(ev.bigEndian, fs[0]), MetaAll(ev.bigEndian, fs[1..]));
      AtSplit(ev.data, n.pos, Data(ev.bigEndian, fs[0]), DataAll(ev.bigEndian, fs[1..]));
      var n1 := DecodeField(ev, n, fs[0]);
      n' := DecodeFields(ev, n1, fs[1..]);
      VisitsJoin(ev, NextProperty(ev, n), Items(fs[0]), NextProperty(ev, n1), ItemsAll(fs[1..]), NextProperty(ev, n'));
    }
  }
}

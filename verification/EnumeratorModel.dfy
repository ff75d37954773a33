/**
 * The EventHeader decoder as a function from state to state: one call of `Step` is one
 * `move_next` that is within its budget. `Enumerator` proves that the class computes it;
 * the other Enumerator modules prove what it means.
 */
module EnumeratorModel {
  import opened Bytes
  import opened FieldTypes

  const STRUCT_NEST_LIMIT: nat := 8
  const TOP_LEVEL_FIELD_LIMIT: nat := 255

  datatype EnumeratorError =
    | Success
    | InvalidParameter
    | NotSupported
    | ImplementationLimit
    | InvalidData
    | StackOverflow

  datatype EnumeratorState =
    | StateError
    | StateAfterLastItem
    | StateBeforeFirstItem
    | StateValue
    | StateArrayBegin
    | StateArrayEnd
    | StateStructBegin
    | StateStructEnd

  datatype SubState =
    | Error
    | AfterLastItem
    | BeforeFirstItem
    | ValueScalar
    | ValueSimpleArrayElement
    | ValueComplexArrayElement
    | ArrayBegin
    | ArrayEnd
    | StructBegin
    | StructEnd

  /** The public state each substate belongs to. */
  function StateOf(sub: SubState): EnumeratorState {
    match sub
    case Error => StateError
    case AfterLastItem => StateAfterLastItem
    case BeforeFirstItem => StateBeforeFirstItem
    case ValueScalar => StateValue
    case ValueSimpleArrayElement => StateValue
    case ValueComplexArrayElement => StateValue
    case ArrayBegin => StateArrayBegin
    case ArrayEnd => StateArrayEnd
    case StructBegin => StateStructBegin
    case StructEnd => StateStructEnd
  }

  predicate IsItem(sub: SubState) {
    sub != Error && sub != AfterLastItem && sub != BeforeFirstItem
  }

  predicate CanMoveNext(sub: SubState) { sub != Error && sub != AfterLastItem }

  /** What enumeration reads and never writes: the event bytes and the extents found in its header. */
  datatype Event = Event(
    data: bytes,
    bigEndian: bool,
    metaStart: nat,
    metaEnd: nat,
    nameLen: nat,
    dataStart: nat)
  {
    ghost predicate Valid() {
      && 8 <= |data| < 0x8000_0000
      && 0 < metaStart
      && metaStart + nameLen < metaEnd <= dataStart <= |data|
      && metaEnd - metaStart <= 65535
      && data[metaStart + nameLen] == 0
    }

    function U16(pos: nat): u16
      requires pos + 2 <= |data|
    {
      ReadU16(bigEndian, data, pos)
    }
  }

  datatype Frame = Frame(
    next: nat,      // offset of the next field's name
    name: nat,      // offset of the current field's name
    nameLen: nat,
    index: nat,
    count: nat,
    remaining: nat) // fields left before this frame is popped

  datatype Core = Core(
    pos: nat,       // data_pos_raw
    top: Frame,
    stack: seq<Frame>,
    sub: SubState,
    err: EnumeratorError,
    elementSize: nat,
    ft: FieldType,
    cookedPos: nat,
    rawSize: nat,
    cookedSize: nat)

  function Fail(m: Core, err: EnumeratorError): Core {
    m.(sub := Error, err := err)
  }

  function EndState(m: Core, sub: SubState): Core {
    m.(cookedPos := m.pos, rawSize := 0, cookedSize := 0, sub := sub)
  }

  // ---- metadata ----

  /** Offset of the first zero byte at or after `pos`, or the end of the metadata. */
  function NameEnd(ev: Event, pos: nat): (r: nat)
    requires ev.Valid() && pos <= ev.metaEnd
    ensures pos <= r <= ev.metaEnd
    ensures forall i :: pos <= i < r ==> ev.data[i] != 0
    ensures r < ev.metaEnd ==> ev.data[r] == 0
    decreases ev.metaEnd - pos
  {
    if pos < ev.metaEnd && ev.data[pos] != 0 then NameEnd(ev, pos + 1) else pos
  }

  /** `read_field_type`: the type stored at `offset` and the offset after it. */
  function ReadType(ev: Event, offset: nat): (r: (FieldType, nat))
    requires ev.Valid() && offset < ev.metaEnd
    ensures offset < r.1 <= ev.metaEnd
    ensures r.0.encoding < CHAIN_FLAG && r.0.format < CHAIN_FLAG
  {
    var e := ev.data[offset];
    if !HasChainFlag(e) then (FieldType(e, 0, 0), offset + 1)
    else if ev.metaEnd == offset + 1 then (NO_TYPE, offset + 1)
    else
      var f := ev.data[offset + 1];
      if !HasChainFlag(f) then (FieldType(WithoutChainFlag(e), f, 0), offset + 2)
      else if ev.metaEnd - (offset + 2) < 2 then
        (FieldType(ENCODING_INVALID, WithoutChainFlag(f), 0), offset + 2)
      else
        (FieldType(WithoutChainFlag(e), WithoutChainFlag(f), ev.U16(offset + 2)), offset + 4)
  }

  /** `read_field_name_and_type`: sets `nameLen` and `next` of the top frame, returns the type. */
  function ReadField(ev: Event, top: Frame): (r: (FieldType, Frame))
    requires ev.Valid() && top.name <= ev.metaEnd
    ensures r.1.name == top.name && r.1.index == top.index && r.1.count == top.count
    ensures r.1.remaining == top.remaining
    ensures top.next <= ev.metaEnd ==> r.1.next <= ev.metaEnd
  {
    var nameEnd := NameEnd(ev, top.name);
    if ev.metaEnd - nameEnd < 2 then (NO_TYPE, top)
    else
      var (ft, next) := ReadType(ev, nameEnd + 1);
      (ft, top.(nameLen := (nameEnd - top.name) % 65536, next := next))
  }

  // ---- starting items ----

  function StartStruct(m: Core): Core {
    m.(elementSize := 0, rawSize := 0, cookedPos := m.pos, cookedSize := 0, sub := StructBegin)
  }

  function StartArray(ev: Event, m: Core): Core
    requires ev.Valid() && m.pos <= |ev.data|
  {
    var m1 := m.(elementSize := 0, rawSize := 0, cookedPos := m.pos, cookedSize := 0, sub := ArrayBegin);
    var base := WithoutFlags(m.ft.encoding);
    if base == ENCODING_STRUCT then m1
    else if IsFixed(base) then
      var m2 := m1.(elementSize := FixedSize(base));
      var arrayLen := m.top.count * FixedSize(base);
      if |ev.data| - m.pos < arrayLen then Fail(m2, InvalidData)
      else m2.(cookedSize := arrayLen, rawSize := arrayLen)
    else if IsLeaf(base) then m1
    else if base == ENCODING_INVALID then Fail(m1, InvalidData)
    else Fail(m1, NotSupported)
  }

  /** Whether the `size` bytes at `pos` are all zero. */
  predicate ZeroChar(data: bytes, pos: nat, size: nat)
    requires pos + size <= |data|
  {
    data[pos..pos + size] == Zeros(size)
  }

  /** Where the scan for an all-zero character stops: at the character, or where none is left. */
  function ScanZero(data: bytes, pos: nat, size: nat): (r: nat)
    requires size == 1 || size == 2 || size == 4
    requires pos <= |data|
    ensures pos <= r <= |data|
    ensures r + size <= |data| ==> ZeroChar(data, r, size)
    decreases |data| - pos
  {
    if pos + size > |data| || ZeroChar(data, pos, size) then pos
    else ScanZero(data, pos + size, size)
  }

  /** One turn of the scan. */
  lemma ScanNext(s: bytes, k: nat, size: nat)
    requires (size == 1 || size == 2 || size == 4) && k <= |s|
    ensures ScanZero(s, k, size) != k ==>
              k + size <= |s| && !ZeroChar(s, k, size)
              && ScanZero(s, k, size) == ScanZero(s, k + size, size) >= k + size
    ensures k + size <= |s| && !ZeroChar(s, k, size) ==> ScanZero(s, k, size) == ScanZero(s, k + size, size)
  {
  }

  function StartValueZString(ev: Event, m: Core, size: nat): Core
    requires ev.Valid() && m.pos <= |ev.data|
    requires size == 1 || size == 2 || size == 4
  {
    var end := ScanZero(ev.data, m.pos, size);
    if end + size <= |ev.data| then m.(cookedSize := end - m.pos, rawSize := end - m.pos + size)
    else m.(cookedSize := |ev.data| - m.pos, rawSize := |ev.data| - m.pos)
  }

  function StartValueString(ev: Event, m: Core, size: nat): Core
    requires ev.Valid() && m.pos <= |ev.data|
  {
    if |ev.data| - m.pos < 2 then m.(rawSize := 2)
    else
      var cooked := ev.U16(m.pos) * size;
      m.(cookedPos := m.pos + 2, cookedSize := cooked, rawSize := cooked + 2)
  }

  function StartValue(ev: Event, m: Core): Core
    requires ev.Valid() && m.pos <= |ev.data|
  {
    var m1 := m.(cookedPos := m.pos, elementSize := 0);
    var base := WithoutFlags(m.ft.encoding);
    if IsFixed(base) then
      var m2 := m1.(elementSize := FixedSize(base));
      if FixedSize(base) > |ev.data| - m.pos then Fail(m2.(cookedSize := 0, rawSize := 0), InvalidData)
      else m2.(cookedSize := FixedSize(base), rawSize := FixedSize(base))
    else if IsZString(base) then CheckSize(ev, StartValueZString(ev, m1, CharSize(base)))
    else if IsCounted(base) then CheckSize(ev, StartValueString(ev, m1, CharSize(base)))
    else Fail(m1.(cookedSize := 0, rawSize := 0), InvalidData)
  }

  function CheckSize(ev: Event, m: Core): Core
    requires m.pos <= |ev.data|
  {
    if |ev.data| - m.pos < m.rawSize then Fail(m.(cookedSize := 0, rawSize := 0), InvalidData) else m
  }

  /** Starting an item changes no frame and not the type. */
  lemma StartKeepsFrames(ev: Event, m: Core)
    requires ev.Valid() && m.pos <= |ev.data|
    ensures var v := StartValue(ev, m); v.top == m.top && v.stack == m.stack && v.ft == m.ft
    ensures var v := StartValue(ev, m); v.pos == m.pos && (v.sub == Error || v.sub == m.sub)
    ensures var a := StartArray(ev, m); a.top == m.top && a.stack == m.stack && a.ft == m.ft
    ensures var a := StartArray(ev, m); a.pos == m.pos && (a.sub == Error || a.sub == ArrayBegin)
  {
    hide ScanZero, FixedSize, CharSize, WithoutFlags;
  }

  // ---- moving between fields ----

  /** What `next_property` and `skip_struct_metadata` need of the state they are called in. */
  ghost predicate CanRead(ev: Event, m: Core) {
    && ev.Valid()
    && ev.dataStart <= m.pos <= |ev.data|
    && ev.metaStart < m.top.next <= ev.metaEnd
    && StackOk(ev, m.stack)
    && (|m.stack| > 0 ==> TypeEnd(ev, m.stack[|m.stack| - 1]) <= m.top.next)
  }

  /** Every open frame holds a struct, and lies in the metadata after the type of its parent. */
  ghost predicate StackOk(ev: Event, stack: seq<Frame>)
    requires ev.Valid()
  {
    && |stack| <= STRUCT_NEST_LIMIT
    && (forall i :: 0 <= i < |stack| ==> OpenFrame(ev, stack[i]))
    && (forall i :: 0 < i < |stack| ==> TypeEnd(ev, stack[i - 1]) <= stack[i].name)
  }

  /** The type of a frame's current field. */
  function TypeOffset(f: Frame): nat { f.name + f.nameLen + 1 }

  /** Where the metadata of a frame's current field ends, its constant array count aside. */
  function TypeEnd(ev: Event, f: Frame): nat
    requires ev.Valid() && TypeOffset(f) < ev.metaEnd
  {
    ReadType(ev, TypeOffset(f)).1
  }

  function TypeOf(ev: Event, f: Frame): FieldType
    requires ev.Valid() && TypeOffset(f) < ev.metaEnd
  {
    ReadType(ev, TypeOffset(f)).0
  }

  /** A frame positioned on a field: name and type lie in the metadata before `next`. */
  ghost predicate OnField(ev: Event, f: Frame)
    requires ev.Valid()
  {
    && ev.metaStart < f.name
    && TypeOffset(f) < ev.metaEnd
    && TypeEnd(ev, f) <= f.next <= ev.metaEnd
    && f.count <= 65535
    && f.remaining < TOP_LEVEL_FIELD_LIMIT
  }

  /** A frame whose current field is a struct that is being walked. */
  ghost predicate OpenFrame(ev: Event, f: Frame)
    requires ev.Valid()
  {
    && OnField(ev, f)
    && f.index < f.count
    && WithoutFlags(TypeOf(ev, f).encoding) == ENCODING_STRUCT
    && (!IsArray(TypeOf(ev, f).encoding) ==> f.count == 1)
  }

  function NextProperty(ev: Event, m: Core): Core
    requires CanRead(ev, m)
  {
    if m.top.remaining != 0 && m.top.next != ev.metaEnd then NextField(ev, m)
    else if |m.stack| != 0 then PopStruct(ev, m)
    else if m.top.next != ev.metaEnd then Fail(m, NotSupported)
    else EndState(m, AfterLastItem)
  }

  function NextField(ev: Event, m: Core): Core
    requires CanRead(ev, m)
    requires m.top.remaining != 0 && m.top.next != ev.metaEnd
  {
    var top0 := m.top.(remaining := m.top.remaining - 1, index := 0, name := m.top.next);
    var (ft, top1) := ReadField(ev, top0);
    var m1 := m.(ft := ft, top := top1);
    if ft.encoding == ENCODING_INVALID then Fail(m1, InvalidData) else FieldRead(ev, m1)
  }

  /** The rest of a field once its name and type have been read. */
  function FieldRead(ev: Event, m: Core): Core
    requires ev.Valid() && m.pos <= |ev.data| && m.top.next <= ev.metaEnd
  {
    if !IsArray(m.ft.encoding) then
      var m1 := m.(top := m.top.(count := 1));
      if m.ft.encoding != ENCODING_STRUCT then StartValue(ev, m1.(sub := ValueScalar))
      else if m.ft.format == 0 then Fail(m1, InvalidData)
      else StartStruct(m1)
    else if IsVariableLengthArray(m.ft.encoding) then
      if |ev.data| - m.pos < 2 then Fail(m, InvalidData)
      else StartArray(ev, m.(top := m.top.(count := ev.U16(m.pos)), pos := m.pos + 2))
    else if ev.metaEnd - m.top.next < 2 then Fail(m, InvalidData)
    else
      var count := ev.U16(m.top.next);
      var m1 := m.(top := m.top.(count := count, next := m.top.next + 2));
      if count == 0 then Fail(m1, InvalidData) else StartArray(ev, m1)
  }

  /** End of a struct: back to the frame that holds it. Re-reading the type rewinds `next`. */
  function PopStruct(ev: Event, m: Core): Core
    requires CanRead(ev, m) && |m.stack| != 0
  {
    EndState(RestoreParent(ev, m).(elementSize := 0), StructEnd)
  }

  function RestoreParent(ev: Event, m: Core): Core
    requires CanRead(ev, m) && |m.stack| != 0
  {
    var parent := m.stack[|m.stack| - 1];
    var (ft, next) := ReadType(ev, TypeOffset(parent));
    var next' := if parent.index + 1 == parent.count then m.top.next else next;
    m.(stack := m.stack[..|m.stack| - 1], top := parent.(next := next'), ft := ft)
  }

  // ---- skipping a struct's metadata ----

  /** One turn of the skip loop: the machine past the next field (`Error` if it fails) and the field's type. */
  function SkipField(ev: Event, m: Core): (r: (Core, FieldType))
    requires CanRead(ev, m) && m.sub != Error && m.top.next != ev.metaEnd
    ensures r.0.sub != Error ==>
      && CanRead(ev, r.0) && m.top.next < r.0.top.next <= ev.metaEnd
      && r.0 == m.(top := m.top.(name := m.top.next, nameLen := r.0.top.nameLen, next := r.0.top.next))
  {
    hide StackOk, ReadType;
    var top0 := m.top.(name := m.top.next);
    var (ft, top) := ReadField(ev, top0);
    var m1 := m.(top := top);
    if ft.encoding == ENCODING_INVALID then (Fail(m1, InvalidData), ft)
    else if !IsConstantLengthArray(ft.encoding) then (m1, ft)
    else if IsVariableLengthArray(ft.encoding) then (Fail(m1, NotSupported), ft)
    else if ev.metaEnd - top.next < 2 then (Fail(m1, InvalidData), ft)
    else (m1.(top := top.(next := top.next + 2)), ft)
  }

  /** The pending field count after a field: a `u8` that grows by a struct's own count, and wraps. */
  function PendingAfter(remaining: byte, ft: FieldType): byte {
    (remaining + (if WithoutFlags(ft.encoding) == ENCODING_STRUCT then ft.format else 0) + 255) % 256
  }

  /** The loop of `skip_struct_metadata`, with `remaining` fields still to skip. */
  function SkipFields(ev: Event, m: Core, remaining: byte): (r: Core)
    requires CanRead(ev, m) && m.sub != Error
    ensures r.sub != Error ==>
      && CanRead(ev, r)
      && r == m.(top := m.top.(name := r.top.name, nameLen := r.top.nameLen, next := r.top.next))
    decreases ev.metaEnd - m.top.next
  {
    if remaining == 0 || m.top.next == ev.metaEnd then m
    else
      var (m1, ft) := SkipField(ev, m);
      if m1.sub == Error then m1 else SkipFields(ev, m1, PendingAfter(remaining, ft))
  }

  lemma SkipFieldsOnce(ev: Event, m: Core, remaining: byte)
    requires CanRead(ev, m) && m.sub != Error
    ensures remaining == 0 || m.top.next == ev.metaEnd ==> SkipFields(ev, m, remaining) == m
    ensures remaining != 0 && m.top.next != ev.metaEnd ==>
              var (m1, ft) := SkipField(ev, m);
              SkipFields(ev, m, remaining)
              == if m1.sub == Error then m1 else SkipFields(ev, m1, PendingAfter(remaining, ft))
  {
    hide SkipField, PendingAfter, StackOk, ReadType;
  }

  function SkipStructMetadata(ev: Event, m: Core): Core
    requires CanRead(ev, m) && m.sub != Error
  {
    SkipFields(ev, m, m.ft.format)
  }

  // ---- one move ----

  /** The invariant of the decoder between calls. */
  ghost predicate Inv(ev: Event, m: Core) {
    && CanRead(ev, m)
    && m.top.remaining <= TOP_LEVEL_FIELD_LIMIT
    && (IsItem(m.sub) ==>
          && OnField(ev, m.top)
          && m.ft == TypeOf(ev, m.top)
          && m.ft.encoding != ENCODING_INVALID
          && m.top.index <= m.top.count
          && (!IsArray(m.ft.encoding) ==> m.top.count == 1)
          && m.pos <= m.cookedPos
          && m.cookedPos + m.cookedSize <= m.pos + m.rawSize <= |ev.data|)
    && (IsItem(m.sub) && |m.stack| > 0 ==> TypeEnd(ev, m.stack[|m.stack| - 1]) <= m.top.name)
    && (m.sub == BeforeFirstItem ==> m.stack == [])
    && SubInv(ev, m)
  }

  /** What each substate says about the field, the array position and the sizes. */
  ghost predicate SubInv(ev: Event, m: Core) {
    var base := WithoutFlags(m.ft.encoding);
    match m.sub
    case ValueScalar =>
      && IsLeaf(base) && !IsArray(m.ft.encoding)
      && m.top.index == 0
      && (IsFixed(base) ==> m.elementSize == FixedSize(base) && m.rawSize == m.cookedSize == m.elementSize)
      && (!IsFixed(base) ==> m.elementSize == 0)
    case ValueSimpleArrayElement =>
      && IsFixed(base) && IsArray(m.ft.encoding)
      && m.top.index < m.top.count
      && m.elementSize == FixedSize(base) && m.rawSize == m.cookedSize == m.elementSize
      && m.cookedPos == m.pos
      && m.pos + (m.top.count - m.top.index) * m.elementSize <= |ev.data|
    case ValueComplexArrayElement =>
      && IsLeaf(base) && !IsFixed(base) && IsArray(m.ft.encoding)
      && m.top.index < m.top.count
      && m.elementSize == 0
    case ArrayBegin =>
      && (IsLeaf(base) || base == ENCODING_STRUCT) && IsArray(m.ft.encoding)
      && m.top.index == 0
      && m.elementSize == (if IsFixed(base) then FixedSize(base) else 0)
      && m.rawSize == m.cookedSize == m.top.count * m.elementSize
      && m.cookedPos == m.pos
    case ArrayEnd =>
      && (IsLeaf(base) || base == ENCODING_STRUCT) && IsArray(m.ft.encoding)
      && m.top.index == m.top.count
      && m.rawSize == 0 && m.cookedPos == m.pos
      && m.elementSize == (if IsFixed(base) then FixedSize(base) else 0)
    case StructBegin =>
      && base == ENCODING_STRUCT && m.top.index < m.top.count
      && m.rawSize == 0 && m.elementSize == 0 && m.cookedPos == m.pos
    case StructEnd =>
      && base == ENCODING_STRUCT && m.top.index < m.top.count
      && m.rawSize == 0 && m.elementSize == 0 && m.cookedPos == m.pos
    case _ => true
  }

  /** `reset_impl`: before the first item. What it does not set keeps its old value. */
  function Reset(ev: Event, m: Core): Core {
    m.(pos := ev.dataStart,
       top := m.top.(next := ev.metaStart + ev.nameLen + 1, remaining := TOP_LEVEL_FIELD_LIMIT),
       stack := [],
       sub := BeforeFirstItem,
       err := Success)
  }

  /** One `move_next` from a state in which it may be called, budget aside. */
  function Step(ev: Event, m: Core): Core
    requires Inv(ev, m) && CanMoveNext(m.sub)
  {
    hide ReadType, NameEnd, StartValue, NextProperty, SkipFields;
    match m.sub
    case BeforeFirstItem => NextProperty(ev, m)
    case ValueScalar => NextProperty(ev, m.(pos := m.pos + m.rawSize))
    case ValueSimpleArrayElement =>
      var m1 := NextElement(m);
      if m1.top.count == m1.top.index then EndState(m1, ArrayEnd) else m1.(cookedPos := m1.pos)
    case ValueComplexArrayElement =>
      var m1 := NextElement(m);
      if m1.top.count == m1.top.index then EndState(m1, ArrayEnd) else StartValue(ev, m1)
    case ArrayBegin =>
      if m.top.count == 0 then EndState(m, ArrayEnd)
      else if m.elementSize != 0 then
        m.(cookedSize := m.elementSize, rawSize := m.elementSize, cookedPos := m.pos, sub := ValueSimpleArrayElement)
      else if WithoutFlags(m.ft.encoding) != ENCODING_STRUCT then
        StartValue(ev, m.(sub := ValueComplexArrayElement))
      else StartStruct(m)
    case ArrayEnd =>
      if WithoutFlags(m.ft.encoding) == ENCODING_STRUCT && m.top.count == 0 then
        var m1 := SkipStructMetadata(ev, m);
        if m1.sub == Error then m1 else NextProperty(ev, m1)
      else NextProperty(ev, m)
    case StructBegin =>
      if |m.stack| >= STRUCT_NEST_LIMIT then Fail(m, StackOverflow)
      else NextProperty(ev, PushStruct(m))
    case StructEnd =>
      var m1 := m.(top := m.top.(index := m.top.index + 1));
      if m1.top.count != m1.top.index then StartStruct(m1)
      else if IsArray(m.ft.encoding) then EndState(m1, ArrayEnd)
      else NextProperty(ev, m1)
  }

  function NextElement(m: Core): Core {
    m.(pos := m.pos + m.rawSize, top := m.top.(index := m.top.index + 1))
  }

  function PushStruct(m: Core): Core {
    m.(stack := m.stack + [m.top], top := m.top.(remaining := m.ft.format))
  }

  // ---- what a move does, state by state ----

  lemma LeaveScalar(ev: Event, m: Core)
    requires Inv(ev, m) && m.sub == ValueScalar
    ensures CanRead(ev, m.(pos := m.pos + m.rawSize)) && m.top.remaining <= TOP_LEVEL_FIELD_LIMIT
    ensures m.pos + m.rawSize <= |ev.data| < 0x8000_0000
    ensures Step(ev, m) == NextProperty(ev, m.(pos := m.pos + m.rawSize))
  {
    hide StackOk, ReadType, OnField, NextProperty;
  }

  lemma EnterMoves(ev: Event, m: Core)
    requires Inv(ev, m) && m.sub == StructBegin
    ensures |m.stack| >= STRUCT_NEST_LIMIT ==> Step(ev, m) == Fail(m, StackOverflow)
    ensures |m.stack| < STRUCT_NEST_LIMIT ==>
              CanRead(ev, PushStruct(m)) && Step(ev, m) == NextProperty(ev, PushStruct(m))
  {
    hide ReadType, NextProperty;
  }

  lemma LeaveStart(ev: Event, m: Core)
    requires Inv(ev, m) && m.sub == BeforeFirstItem
    ensures CanRead(ev, m) && m.top.remaining <= TOP_LEVEL_FIELD_LIMIT
    ensures Step(ev, m) == NextProperty(ev, m)
  {
    hide StackOk, ReadType, OnField, NextProperty;
  }

  lemma ElementMoves(ev: Event, m: Core)
    requires Inv(ev, m) && (m.sub == ValueSimpleArrayElement || m.sub == ValueComplexArrayElement)
    ensures var m1 := NextElement(m);
            && ev.Valid() && m1.pos <= |ev.data|
            && Step(ev, m)
               == if m1.top.count == m1.top.index then EndState(m1, ArrayEnd)
                  else if m.sub == ValueSimpleArrayElement then m1.(cookedPos := m1.pos)
                  else StartValue(ev, m1)
  {
    hide StackOk, ReadType, OnField, StartValue, NextProperty;
  }

  lemma ResetReads(ev: Event, m: Core)
    requires ev.Valid()
    ensures Inv(ev, Reset(ev, m)) && CanRead(ev, Reset(ev, m))
    ensures Step(ev, Reset(ev, m)) == NextProperty(ev, Reset(ev, m))
  {
    hide ReadType, NextProperty;
  }

  // ---- the invariant ----

  lemma ReadFieldOnField(ev: Event, top: Frame)
    requires ev.Valid() && ev.metaStart < top.name <= ev.metaEnd && top.remaining < TOP_LEVEL_FIELD_LIMIT
    requires ReadField(ev, top).0.encoding != ENCODING_INVALID
    ensures var (ft, top') := ReadField(ev, top);
            && TypeOffset(top') < ev.metaEnd
            && (ft, top'.next) == ReadType(ev, TypeOffset(top'))
            && TypeOffset(top') == NameEnd(ev, top.name) + 1
            && top.name < top'.next <= ev.metaEnd
  {
  }

  /** The state in which `NextField` and `Step` start an item of the top frame's field. */
  ghost predicate Starting(ev: Event, m: Core) {
    && CanRead(ev, m) && OnField(ev, m.top) && m.ft == TypeOf(ev, m.top)
    && m.ft.encoding != ENCODING_INVALID
    && (|m.stack| > 0 ==> TypeEnd(ev, m.stack[|m.stack| - 1]) <= m.top.name)
  }

  lemma StartValueInv(ev: Event, m: Core)
    requires Starting(ev, m) && WithoutFlags(m.ft.encoding) != ENCODING_STRUCT
    requires m.top.index < m.top.count
    requires
      || (m.sub == ValueScalar && !IsArray(m.ft.encoding) && m.top.index == 0 && m.top.count == 1)
      || (m.sub == ValueComplexArrayElement && IsArray(m.ft.encoding)
          && IsLeaf(WithoutFlags(m.ft.encoding)) && !IsFixed(WithoutFlags(m.ft.encoding)))
    ensures Inv(ev, StartValue(ev, m))
    ensures StartValue(ev, m).sub != Error ==> StartValue(ev, m).sub == m.sub
  {
    hide ReadType, StackOk, ScanZero;
  }

  lemma StartArrayInv(ev: Event, m: Core)
    requires Starting(ev, m) && IsArray(m.ft.encoding) && m.top.index == 0
    ensures Inv(ev, StartArray(ev, m))
    ensures StartArray(ev, m).sub == ArrayBegin || StartArray(ev, m).sub == Error
  {
    hide ReadType, StackOk;
  }

  /** The state after a field's name and type have been read into the top frame. */
  ghost predicate FieldIsRead(ev: Event, m: Core) {
    && CanRead(ev, m) && m.top.index == 0 && m.top.remaining < TOP_LEVEL_FIELD_LIMIT
    && ev.metaStart < m.top.name && TypeOffset(m.top) < ev.metaEnd
    && m.ft == TypeOf(ev, m.top) && m.top.next == TypeEnd(ev, m.top)
    && m.ft.encoding != ENCODING_INVALID
    && (|m.stack| > 0 ==> TypeEnd(ev, m.stack[|m.stack| - 1]) <= m.top.name)
  }

  lemma ScalarReadInv(ev: Event, m: Core)
    requires FieldIsRead(ev, m) && !IsArray(m.ft.encoding)
    ensures Inv(ev, FieldRead(ev, m))
  {
    hide ReadType, StackOk, StartValue, StartArray;
    var m1 := m.(top := m.top.(count := 1));
    if m.ft.encoding != ENCODING_STRUCT {
      StartValueInv(ev, m1.(sub := ValueScalar));
    } else if m.ft.format != 0 {
      assert Inv(ev, StartStruct(m1));
    }
  }

  lemma ArrayReadInv(ev: Event, m: Core)
    requires FieldIsRead(ev, m) && IsArray(m.ft.encoding)
    ensures Inv(ev, FieldRead(ev, m))
  {
    hide ReadType, StackOk, StartArray, StartValue, StartStruct, Inv;
    if IsVariableLengthArray(m.ft.encoding) {
      if |ev.data| - m.pos >= 2 {
        StartArrayInv(ev, m.(top := m.top.(count := ev.U16(m.pos)), pos := m.pos + 2));
      } else {
        FailInv(ev, m, InvalidData);
      }
    } else if ev.metaEnd - m.top.next < 2 {
      FailInv(ev, m, InvalidData);
    } else if ev.U16(m.top.next) == 0 {
      FailInv(ev, m.(top := m.top.(count := 0, next := m.top.next + 2)), InvalidData);
    } else {
      StartArrayInv(ev, m.(top := m.top.(count := ev.U16(m.top.next), next := m.top.next + 2)));
    }
  }

  lemma FieldReadInv(ev: Event, m: Core)
    requires FieldIsRead(ev, m)
    ensures Inv(ev, FieldRead(ev, m))
  {
    if IsArray(m.ft.encoding) {
      ArrayReadInv(ev, m);
    } else {
      ScalarReadInv(ev, m);
    }
  }

  lemma FailInv(ev: Event, m: Core, err: EnumeratorError)
    requires CanRead(ev, m) && m.top.remaining <= TOP_LEVEL_FIELD_LIMIT
    ensures Inv(ev, Fail(m, err))
  {
    hide StackOk, ReadType, OnField;
  }

  lemma NextFieldInv(ev: Event, m: Core)
    requires CanRead(ev, m) && m.top.remaining <= TOP_LEVEL_FIELD_LIMIT
    requires m.top.remaining != 0 && m.top.next != ev.metaEnd
    ensures Inv(ev, NextField(ev, m))
  {
    hide StackOk, ReadType, FieldRead, Inv, NameEnd;
    var top0 := m.top.(remaining := m.top.remaining - 1, index := 0, name := m.top.next);
    var (ft, top1) := ReadField(ev, top0);
    var m1 := m.(ft := ft, top := top1);
    if ft.encoding != ENCODING_INVALID {
      ReadFieldOnField(ev, top0);
      FieldReadInv(ev, m1);
    } else {
      FailInv(ev, m1, InvalidData);
    }
  }

  lemma CursorInMetadata(ev: Event, m: Core)
    requires CanRead(ev, m)
    ensures ev.metaStart < m.top.next <= ev.metaEnd
  {
  }

  lemma ParentType(ev: Event, m: Core)
    requires CanRead(ev, m) && |m.stack| != 0
    ensures TypeOffset(m.stack[|m.stack| - 1]) < ev.metaEnd
  {
    assert OpenFrame(ev, m.stack[|m.stack| - 1]);
  }

  lemma PopStructInv(ev: Event, m: Core)
    requires CanRead(ev, m) && |m.stack| != 0
    ensures Inv(ev, PopStruct(ev, m))
  {
    hide ReadType;
    assert OpenFrame(ev, m.stack[|m.stack| - 1]);
  }

  lemma NextPropertyInv(ev: Event, m: Core)
    requires CanRead(ev, m) && m.top.remaining <= TOP_LEVEL_FIELD_LIMIT
    ensures Inv(ev, NextProperty(ev, m))
  {
    hide ReadType, StackOk, NextField, PopStruct, OnField;
    if m.top.remaining != 0 && m.top.next != ev.metaEnd {
      NextFieldInv(ev, m);
    } else if |m.stack| != 0 {
      PopStructInv(ev, m);
    }
  }

  /** Between elements of a complex array, and before the first, the next value can be started. */
  lemma ElementStarting(ev: Event, m: Core)
    requires Inv(ev, m)
    requires
      || m.sub == ValueComplexArrayElement
      || (m.sub == ArrayBegin && m.elementSize == 0 && WithoutFlags(m.ft.encoding) != ENCODING_STRUCT)
    ensures var m1 := if m.sub == ArrayBegin then m.(sub := ValueComplexArrayElement) else NextElement(m);
            && Starting(ev, m1)
            && IsArray(m1.ft.encoding) && IsLeaf(WithoutFlags(m1.ft.encoding)) && !IsFixed(WithoutFlags(m1.ft.encoding))
  {
    hide ReadType, StackOk;
  }

  lemma ElementInv(ev: Event, m: Core)
    requires Inv(ev, m) && (m.sub == ValueSimpleArrayElement || m.sub == ValueComplexArrayElement)
    ensures Inv(ev, Step(ev, m))
  {
    hide ReadType, StackOk, StartValue, NextProperty, SkipFields;
    var m1 := NextElement(m);
    if m1.top.count != m1.top.index && m.sub == ValueComplexArrayElement {
      StartValueInv(ev, m1);
    }
  }

  lemma ArrayBeginInv(ev: Event, m: Core)
    requires Inv(ev, m) && m.sub == ArrayBegin
    ensures Inv(ev, Step(ev, m))
  {
    hide ReadType, StackOk, StartValue, NextProperty, SkipFields;
    if m.top.count != 0 && m.elementSize == 0 && WithoutFlags(m.ft.encoding) != ENCODING_STRUCT {
      StartValueInv(ev, m.(sub := ValueComplexArrayElement));
    }
  }

  lemma ArrayEndInv(ev: Event, m: Core)
    requires Inv(ev, m) && m.sub == ArrayEnd
    ensures Inv(ev, Step(ev, m))
  {
    hide ReadType, StackOk, StartValue, NextProperty, SkipFields;
    if WithoutFlags(m.ft.encoding) == ENCODING_STRUCT && m.top.count == 0 {
      var m1 := SkipStructMetadata(ev, m);
      if m1.sub != Error {
        NextPropertyInv(ev, m1);
      } else {
        SkipFieldsError(ev, m, m.ft.format);
      }
    } else {
      NextPropertyInv(ev, m);
    }
  }

  lemma {:induction false} SkipFieldsError(ev: Event, m: Core, remaining: byte)
    requires CanRead(ev, m) && m.top.remaining <= TOP_LEVEL_FIELD_LIMIT && m.sub != Error
    requires SkipFields(ev, m, remaining).sub == Error
    ensures Inv(ev, SkipFields(ev, m, remaining))
    decreases ev.metaEnd - m.top.next
  {
    hide ReadType, NameEnd, StackOk, OnField;
    var (m1, ft) := SkipField(ev, m);
    if m1.sub != Error {
      hide SkipField;
      SkipFieldsError(ev, m1, PendingAfter(remaining, ft));
    }
  }

  lemma StructBeginInv(ev: Event, m: Core)
    requires Inv(ev, m) && m.sub == StructBegin
    ensures Inv(ev, Step(ev, m))
  {
    hide ReadType, StartValue, NextProperty, SkipFields;
    if |m.stack| < STRUCT_NEST_LIMIT {
      NextPropertyInv(ev, PushStruct(m));
    }
  }

  lemma StructEndInv(ev: Event, m: Core)
    requires Inv(ev, m) && m.sub == StructEnd
    ensures Inv(ev, Step(ev, m))
  {
    hide ReadType, StartValue, NextProperty, SkipFields, StackOk;
    var m1 := m.(top := m.top.(index := m.top.index + 1));
    if m1.top.count == m1.top.index && !IsArray(m.ft.encoding) {
      NextPropertyInv(ev, m1);
    }
  }

  /** Every move keeps the invariant, whatever the event's bytes. */
  lemma StepInv(ev: Event, m: Core)
    requires Inv(ev, m) && CanMoveNext(m.sub)
    ensures Inv(ev, Step(ev, m))
  {
    hide ReadType, StackOk, StartValue, NextProperty, SkipFields, OnField;
    match m.sub
    case BeforeFirstItem => NextPropertyInv(ev, m);
    case ValueScalar => NextPropertyInv(ev, m.(pos := m.pos + m.rawSize));
    case ValueSimpleArrayElement => ElementInv(ev, m);
    case ValueComplexArrayElement => ElementInv(ev, m);
    case ArrayBegin => ArrayBeginInv(ev, m);
    case ArrayEnd => ArrayEndInv(ev, m);
    case StructBegin => StructBeginInv(ev, m);
    case StructEnd => StructEndInv(ev, m);
  }
}

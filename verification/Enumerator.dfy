/**
 * `EventHeaderEnumeratorContext`: the decoder with its fields updated in place. Each method is
 * proved to take the context exactly where the function of the same name in `EnumeratorModel`
 * says, on every event and from every state the invariant allows.
 */
module Enumerator {
  import opened Bytes
  import opened FieldTypes
  import opened EnumeratorModel
  import opened EnumeratorBudget
  import opened EventFraming
  import opened EventOpening
  import TracepointName

  type u8 = x: int | 0 <= x < 256
  type u32 = x: int | 0 <= x < 0x1_0000_0000

  class EventHeaderEnumeratorContext {
    // Set when an event is opened.
    var header: EventHeader
    var keyword: u64
    var bigEndian: bool
    var metaStart: u32
    var metaEnd: u32
    var eventNameLen: u16
    var activityIdStart: u32
    var activityIdLen: u8
    var dataStart: u32

    // Vary during enumeration.
    var dataPosRaw: u32
    var moveNextRemaining: u32
    var stackTop: Frame
    var stackIndex: u8
    var state: EnumeratorState
    var substate: SubState
    var lastError: EnumeratorError
    var elementSize: u8
    var fieldType: FieldType
    var dataPosCooked: u32
    var itemSizeRaw: u32
    var itemSizeCooked: u32
    const stack: array<Frame>

    /** The event that `data` is, given the extents found in its header. */
    ghost function Ev(data: bytes): Event
      reads this
    {
      Event(data, bigEndian, metaStart, metaEnd, eventNameLen, dataStart)
    }

    /** The stack is in range and the public state is the substate's. */
    ghost predicate Shape()
      reads this
    {
      stack.Length == STRUCT_NEST_LIMIT && stackIndex <= STRUCT_NEST_LIMIT && state == StateOf(substate)
    }

    /** The frames below the top one. */
    ghost function Frames(): seq<Frame>
      reads `stackIndex, stack
      requires stackIndex <= stack.Length
    {
      stack[..stackIndex]
    }

    lemma NoFrames()
      requires stackIndex == 0 <= stack.Length
      ensures Frames() == []
    {
    }

    ghost function View(): Core
      reads this, stack
      requires Shape()
    {
      Core(dataPosRaw, stackTop, Frames(), substate, lastError, elementSize, fieldType,
           dataPosCooked, itemSizeRaw, itemSizeCooked)
    }

    /** `is_element`: a value or struct that stands in an array. */
    predicate IsElement()
      reads this
    {
      (state == StateValue || state == StateStructBegin || state == StateStructEnd) && IsArray(fieldType.encoding)
    }

    ghost predicate Valid(data: bytes)
      reads this, stack
    {
      Shape() && Inv(Ev(data), View())
    }

    constructor ()
      ensures Shape() && fresh(stack) && substate == Error && lastError == Success
    {
      header, keyword := EventHeader(0, 0, 0, 0, 0, 0), 0;
      bigEndian, metaStart, metaEnd, eventNameLen, dataStart := true, 0, 0, 0, 0;
      activityIdStart, activityIdLen := 0, 0;
      dataPosRaw, moveNextRemaining, stackIndex := 0, 0, 0;
      stackTop := Frame(0, 0, 0, 0, 0, 0);
      state, substate, lastError := StateError, Error, Success;
      elementSize, fieldType := 0, NO_TYPE;
      dataPosCooked, itemSizeRaw, itemSizeCooked := 0, 0, 0;
      stack := new Frame[STRUCT_NEST_LIMIT](_ => Frame(0, 0, 0, 0, 0, 0));
    }

    method SetState(state: EnumeratorState, substate: SubState)
      requires Shape() && state == StateOf(substate)
      modifies `state, `substate
      ensures Shape() && View() == old(View()).(sub := substate)
    {
      hide Frames;
      this.state := state;
      this.substate := substate;
    }

    method SetEndState(state: EnumeratorState, substate: SubState)
      requires Shape() && state == StateOf(substate)
      modifies `dataPosCooked, `itemSizeRaw, `itemSizeCooked, `state, `substate
      ensures Shape() && View() == EndState(old(View()), substate)
    {
      hide Frames;
      dataPosCooked := dataPosRaw;
      itemSizeRaw := 0;
      itemSizeCooked := 0;
      this.state := state;
      this.substate := substate;
    }

    method SetErrorState(error: EnumeratorError) returns (moved: bool)
      requires Shape()
      modifies `lastError, `state, `substate
      ensures Shape() && View() == Fail(old(View()), error) && !moved
    {
      hide Frames;
      lastError := error;
      state := StateError;
      substate := Error;
      return false;
    }

    // ---- metadata ----

    method ReadFieldType(data: bytes, typeOffset: u32) returns (ft: FieldType)
      requires Shape() && Ev(data).Valid() && typeOffset < metaEnd
      modifies `stackTop
      ensures (ft, stackTop.next) == ReadType(Ev(data), typeOffset)
      ensures stackTop == old(stackTop).(next := stackTop.next)
    {
      var pos: nat := typeOffset;
      var encoding := data[pos];
      var format: byte := 0;
      var tag: u16 := 0;
      pos := pos + 1;
      if HasChainFlag(encoding) {
        if metaEnd == pos {
          encoding := ENCODING_INVALID;
        } else {
          format := data[pos];
          pos := pos + 1;
          if HasChainFlag(format) {
            var tagSpace: u32 := metaEnd - pos;
            if tagSpace < 2 {
              encoding := ENCODING_INVALID;
            } else {
              tag := ReadU16(bigEndian, data, pos);
              pos := pos + 2;
            }
          }
        }
      }
      stackTop := stackTop.(next := pos);
      ft := FieldType(WithoutChainFlag(encoding), WithoutChainFlag(format), tag);
    }

    method ReadFieldNameAndType(data: bytes) returns (ft: FieldType)
      requires Shape() && Ev(data).Valid() && stackTop.name <= metaEnd
      modifies `stackTop
      ensures (ft, stackTop) == ReadField(Ev(data), old(stackTop))
    {
      var nameBegin := stackTop.name;
      var nameEnd := nameBegin;
      while nameEnd < metaEnd && data[nameEnd] != 0
        invariant nameBegin <= nameEnd <= metaEnd
        invariant NameEnd(Ev(data), nameBegin) == NameEnd(Ev(data), nameEnd)
      {
        nameEnd := nameEnd + 1;
      }
      var typeSpace: u32 := metaEnd - nameEnd;
      if typeSpace < 2 {
        ft := NO_TYPE;
      } else {
        stackTop := stackTop.(nameLen := (nameEnd - nameBegin) % 65536);
        ft := ReadFieldType(data, nameEnd + 1);
      }
    }

    // ---- starting items ----

    method StartStruct()
      requires Shape()
      modifies `elementSize, `itemSizeRaw, `dataPosCooked, `itemSizeCooked, `state, `substate
      ensures Shape() && View() == EnumeratorModel.StartStruct(old(View()))
    {
      hide Frames;
      elementSize := 0;
      itemSizeRaw := 0;
      dataPosCooked := dataPosRaw;
      itemSizeCooked := 0;
      SetState(StateStructBegin, StructBegin);
    }

    method StartArray(data: bytes) returns (moved: bool)
      requires Shape() && Ev(data).Valid() && dataPosRaw <= |data| && stackTop.count <= 65535
      modifies `elementSize, `itemSizeRaw, `dataPosCooked, `itemSizeCooked, `state, `substate, `lastError
      ensures Shape() && View() == EnumeratorModel.StartArray(Ev(data), old(View()))
      ensures moved == IsItem(substate)
    {
      hide Frames, ReadType, NameEnd, FixedSize, WithoutFlags;
      elementSize := 0;
      itemSizeRaw := 0;
      dataPosCooked := dataPosRaw;
      itemSizeCooked := 0;
      SetState(StateArrayBegin, ArrayBegin);
      ghost var m := View();
      assert m == old(View()).(elementSize := 0, rawSize := 0, cookedPos := old(dataPosRaw), cookedSize := 0,
          sub := ArrayBegin);

      var base := WithoutFlags(fieldType.encoding);
      if base == ENCODING_STRUCT {
        return true;
      } else if IsFixed(base) {
        moved := StartFixedArray(data, FixedSize(base));
        return;
      } else if IsLeaf(base) {
        return true;
      } else if base == ENCODING_INVALID {
        moved := SetErrorState(InvalidData);
        return;
      } else {
        moved := SetErrorState(NotSupported);
        return;
      }
    }

    /** An array of fixed-size elements lies in the payload whole. */
    method StartFixedArray(data: bytes, size: u8) returns (moved: bool)
      requires Shape() && Ev(data).Valid() && dataPosRaw <= |data| && stackTop.count <= 65535
      requires substate == ArrayBegin && itemSizeRaw == itemSizeCooked == 0
      modifies `elementSize, `itemSizeRaw, `itemSizeCooked, `state, `substate, `lastError
      ensures Shape()
      ensures View()
           == var m := old(View()).(elementSize := size);
              var arrayLen := m.top.count * size;
              if |data| - m.pos < arrayLen then Fail(m, InvalidData)
              else m.(cookedSize := arrayLen, rawSize := arrayLen)
      ensures moved == IsItem(substate)
    {
      hide Frames;
      elementSize := size;
      assert View() == old(View()).(elementSize := size);
      var remainingLen: u32 := |data| - dataPosRaw;
      assert stackTop.count * elementSize <= 65535 * 255;
      var arrayLen: u32 := stackTop.count * elementSize;
      if remainingLen < arrayLen {
        moved := SetErrorState(InvalidData);
        return;
      }
      itemSizeCooked := arrayLen;
      itemSizeRaw := arrayLen;
      return true;
    }

    method StartValueSimple()
      requires Shape()
      modifies `dataPosCooked
      ensures Shape() && View() == old(View()).(cookedPos := old(dataPosRaw))
    {
      dataPosCooked := dataPosRaw;
    }

    method StartValueFixedLength(data: bytes, size: u8) returns (moved: bool)
      requires Shape() && Ev(data).Valid() && dataPosRaw <= |data| && state == StateValue
      modifies `elementSize, `itemSizeRaw, `itemSizeCooked, `state, `substate, `lastError
      ensures Shape()
      ensures View() ==
              var m := old(View()).(elementSize := size);
              if size > |data| - old(dataPosRaw) then Fail(m.(cookedSize := 0, rawSize := 0), InvalidData)
              else m.(cookedSize := size, rawSize := size)
      ensures moved == IsItem(substate)
    {
      elementSize := size;
      var remainingLen: u32 := |data| - dataPosRaw;
      if size > remainingLen {
        itemSizeCooked := 0;
        itemSizeRaw := 0;
        moved := SetErrorState(InvalidData);
        return;
      }
      itemSizeCooked := size;
      itemSizeRaw := size;
      return true;
    }

    method StartValueZString(data: bytes, size: u8)
      requires Shape() && Ev(data).Valid() && dataPosRaw <= |data|
      requires size == 1 || size == 2 || size == 4
      modifies `itemSizeRaw, `itemSizeCooked
      ensures Shape() && View() == EnumeratorModel.StartValueZString(Ev(data), old(View()), size)
    {
      hide ScanZero, ZeroChar;
      var endPos: u32 := |data| - size + 1;
      var pos := dataPosRaw;
      while pos < endPos
        invariant dataPosRaw <= pos <= |data|
        invariant ScanZero(data, dataPosRaw, size) == ScanZero(data, pos, size)
        invariant View() == old(View())
      {
        ScanNext(data, pos, size);
        if ZeroChar(data, pos, size) {
          itemSizeCooked := pos - dataPosRaw;
          itemSizeRaw := itemSizeCooked + size;
          return;
        }
        pos := pos + size;
      }
      ScanNext(data, pos, size);
      itemSizeCooked := |data| - dataPosRaw;
      itemSizeRaw := |data| - dataPosRaw;
    }

    method StartValueString(data: bytes, charSize: u8)
      requires Shape() && Ev(data).Valid() && dataPosRaw <= |data|
      requires charSize == 1 || charSize == 2 || charSize == 4
      modifies `itemSizeRaw, `itemSizeCooked, `dataPosCooked
      ensures Shape() && View() == EnumeratorModel.StartValueString(Ev(data), old(View()), charSize)
    {
      var remaining: u32 := |data| - dataPosRaw;
      if remaining < 2 {
        itemSizeRaw := 2;
      } else {
        dataPosCooked := dataPosRaw + 2;
        var cch := ReadU16(bigEndian, data, dataPosRaw);
        itemSizeCooked := cch * charSize;
        itemSizeRaw := itemSizeCooked + 2;
      }
    }

    method StartValue(data: bytes) returns (moved: bool)
      requires Shape() && Ev(data).Valid() && dataPosRaw <= |data| && state == StateValue
      modifies `elementSize, `itemSizeRaw, `itemSizeCooked, `dataPosCooked, `state, `substate, `lastError
      ensures Shape() && View() == EnumeratorModel.StartValue(Ev(data), old(View()))
      ensures moved == IsItem(substate)
    {
      hide Frames, EnumeratorModel.CheckSize, EnumeratorModel.StartValueZString, EnumeratorModel.StartValueString,
          IsFixed, IsZString, IsCounted, FixedSize, CharSize, WithoutFlags;
      var remainingLen: u32 := |data| - dataPosRaw;
      dataPosCooked := dataPosRaw;
      elementSize := 0;
      assert View() == old(View()).(cookedPos := dataPosRaw, elementSize := 0);
      var base := WithoutFlags(fieldType.encoding);
      if IsFixed(base) {
        moved := StartValueFixedLength(data, FixedSize(base));
        return;
      } else if IsZString(base) {
        StartValueZString(data, CharSize(base));
      } else if IsCounted(base) {
        StartValueString(data, CharSize(base));
      } else {
        itemSizeCooked := 0;
        itemSizeRaw := 0;
        moved := SetErrorState(InvalidData);
        return;
      }
      moved := CheckSize(data, remainingLen);
    }

    /** The item must fit into what is left of the payload. */
    method CheckSize(data: bytes, remainingLen: nat) returns (moved: bool)
      requires Shape() && Ev(data).Valid() && dataPosRaw <= |data| && state == StateValue
      requires remainingLen == |data| - dataPosRaw
      modifies `itemSizeRaw, `itemSizeCooked, `state, `substate, `lastError
      ensures Shape() && View() == EnumeratorModel.CheckSize(Ev(data), old(View()))
      ensures moved == IsItem(substate)
    {
      hide Frames;
      if remainingLen < itemSizeRaw {
        itemSizeCooked := 0;
        itemSizeRaw := 0;
        moved := SetErrorState(InvalidData);
      } else {
        moved := true;
      }
    }

    // ---- moving between fields ----

    method NextProperty(data: bytes) returns (moved: bool)
      requires Shape() && CanRead(Ev(data), View()) && stackTop.remaining <= TOP_LEVEL_FIELD_LIMIT
      modifies `dataPosRaw, `stackTop, `stackIndex, `state, `substate, `lastError, `elementSize, `fieldType
      modifies `dataPosCooked, `itemSizeRaw, `itemSizeCooked
      ensures Shape() && View() == EnumeratorModel.NextProperty(Ev(data), old(View()))
      ensures moved == IsItem(substate)
    {
      hide ReadType, NameEnd, StackOk;
      if stackTop.remaining != 0 && stackTop.next != metaEnd {
        moved := NextField(data);
        return;
      }
      if stackIndex != 0 {
        PopStruct(data);
        return true;
      }
      if stackTop.next != metaEnd {
        moved := SetErrorState(NotSupported);
        return;
      }
      SetEndState(StateAfterLastItem, AfterLastItem);
      return false;
    }

    /** The first half of `next_property`: decode the field at the cursor. */
    method NextField(data: bytes) returns (moved: bool)
      requires Shape() && CanRead(Ev(data), View())
      requires stackTop.remaining != 0 && stackTop.next != metaEnd
      modifies `dataPosRaw, `stackTop, `state, `substate, `lastError, `elementSize, `fieldType
      modifies `dataPosCooked, `itemSizeRaw, `itemSizeCooked
      ensures Shape() && View() == EnumeratorModel.NextField(Ev(data), old(View()))
      ensures moved == IsItem(substate)
    {
      hide Frames, ReadType, NameEnd, StackOk, EnumeratorModel.FieldRead, ReadField;
      stackTop := stackTop.(remaining := stackTop.remaining - 1, index := 0, name := stackTop.next);
      fieldType := ReadFieldNameAndType(data);
      assert View() == old(View()).(ft := fieldType, top := stackTop);
      if fieldType.encoding == ENCODING_INVALID {
        moved := SetErrorState(InvalidData);
        return;
      }
      moved := FieldRead(data);
    }

    method ScalarRead(data: bytes) returns (moved: bool)
      requires Shape() && Ev(data).Valid() && dataPosRaw <= |data| && stackTop.next <= metaEnd
      requires !IsArray(fieldType.encoding)
      modifies `stackTop, `state, `substate, `lastError, `elementSize
      modifies `dataPosCooked, `itemSizeRaw, `itemSizeCooked
      ensures Shape() && View() == EnumeratorModel.FieldRead(Ev(data), old(View()))
      ensures moved == IsItem(substate)
    {
      hide Frames, EnumeratorModel.StartValue, EnumeratorModel.StartArray, ReadType, ReadU16, IsArray,
          IsVariableLengthArray;
      stackTop := stackTop.(count := 1);
      assert View() == old(View()).(top := stackTop);
      if fieldType.encoding != ENCODING_STRUCT {
        SetState(StateValue, ValueScalar);
        moved := StartValue(data);
      } else if fieldType.format == 0 {
        moved := SetErrorState(InvalidData);
      } else {
        StartStruct();
        moved := true;
      }
    }

    method FieldRead(data: bytes) returns (moved: bool)
      requires Shape() && Ev(data).Valid() && dataPosRaw <= |data| && stackTop.next <= metaEnd
      modifies `dataPosRaw, `stackTop, `state, `substate, `lastError, `elementSize
      modifies `dataPosCooked, `itemSizeRaw, `itemSizeCooked
      ensures Shape() && View() == EnumeratorModel.FieldRead(Ev(data), old(View()))
      ensures moved == IsItem(substate)
    {
      hide Frames, EnumeratorModel.StartValue, EnumeratorModel.StartArray, ReadType, ReadU16, IsArray,
          IsVariableLengthArray;
      if !IsArray(fieldType.encoding) {
        moved := ScalarRead(data);
        return;
      }
      if IsVariableLengthArray(fieldType.encoding) {
        var countSpace: u32 := |data| - dataPosRaw;
        if countSpace < 2 {
          moved := SetErrorState(InvalidData);
          return;
        }
        stackTop := stackTop.(count := ReadU16(bigEndian, data, dataPosRaw));
        dataPosRaw := dataPosRaw + 2;
        assert View() == old(View()).(top := stackTop, pos := dataPosRaw);
        moved := StartArray(data);
        return;
      }
      var countSpace: u32 := metaEnd - stackTop.next;
      if countSpace < 2 {
        moved := SetErrorState(InvalidData);
        return;
      }
      stackTop := stackTop.(count := ReadU16(bigEndian, data, stackTop.next), next := stackTop.next + 2);
      assert View() == old(View()).(top := stackTop);
      if stackTop.count == 0 {
        moved := SetErrorState(InvalidData);
        return;
      }
      moved := StartArray(data);
    }

    /** The second half of `next_property`: the struct's fields are done, back to its parent. */
    method PopStruct(data: bytes)
      requires Shape() && CanRead(Ev(data), View()) && stackIndex != 0
      modifies `stackTop, `stackIndex, `state, `substate, `elementSize, `fieldType
      modifies `dataPosCooked, `itemSizeRaw, `itemSizeCooked
      ensures Shape() && View() == EnumeratorModel.PopStruct(Ev(data), old(View())) && substate == StructEnd
    {
      hide ReadType, NameEnd, StackOk, CanRead, EnumeratorModel.RestoreParent;
      RestoreParent(data);
      elementSize := 0;
      SetEndState(StateStructEnd, StructEnd);
    }

    method RestoreParent(data: bytes)
      requires Shape() && CanRead(Ev(data), View()) && stackIndex != 0
      modifies `stackTop, `stackIndex, `fieldType
      ensures Shape() && View() == EnumeratorModel.RestoreParent(Ev(data), old(View()))
    {
      hide ReadType, NameEnd, StackOk;
      ParentType(Ev(data), View());
      stackIndex := stackIndex - 1;
      var childMetadataOffset := stackTop.next;
      stackTop := stack[stackIndex];
      fieldType := ReadFieldType(data, stackTop.name + stackTop.nameLen + 1);
      if stackTop.index + 1 == stackTop.count {
        stackTop := stackTop.(next := childMetadataOffset);
      }
    }

    method SkipStructMetadata(data: bytes) returns (ok: bool)
      requires Shape() && CanRead(Ev(data), View()) && substate != Error
      modifies `stackTop, `state, `substate, `lastError
      ensures Shape() && View() == EnumeratorModel.SkipStructMetadata(Ev(data), old(View()))
      ensures ok == (substate != Error)
    {
      hide Frames, StateOf, StackOk, EnumeratorModel.SkipField, CanRead, SkipFields;
      ghost var ev := Ev(data);
      CursorInMetadata(ev, View());
      var remainingFieldCount: byte := fieldType.format;
      while remainingFieldCount != 0 && stackTop.next != metaEnd
        invariant stackTop.next <= metaEnd
        invariant Shape() && CanRead(ev, View()) && substate != Error
        invariant SkipFields(ev, View(), remainingFieldCount) == SkipFields(ev, old(View()), fieldType.format)
        decreases metaEnd - stackTop.next
      {
        SkipFieldsOnce(ev, View(), remainingFieldCount);
        var typ;
        ok, typ := SkipField(data);
        if !ok {
          return;
        }
        if WithoutFlags(typ.encoding) == ENCODING_STRUCT {
          remainingFieldCount := (remainingFieldCount + typ.format) % 256;
        }
        remainingFieldCount := (remainingFieldCount + 255) % 256;
      }
      SkipFieldsOnce(ev, View(), remainingFieldCount);
      return true;
    }

    /** The body of the skip loop up to its count: minimal validation of one field. */
    method SkipField(data: bytes) returns (ok: bool, typ: FieldType)
      requires Shape() && CanRead(Ev(data), View()) && substate != Error && stackTop.next != metaEnd
      modifies `stackTop, `state, `substate, `lastError
      ensures Shape() && (View(), typ) == EnumeratorModel.SkipField(Ev(data), old(View()))
      ensures ok == (substate != Error)
    {
      hide ReadType, NameEnd, StackOk;
      stackTop := stackTop.(name := stackTop.next);
      typ := ReadFieldNameAndType(data);
      ok := true;
      if typ.encoding == ENCODING_INVALID {
        ok := SetErrorState(InvalidData);
      } else if !IsConstantLengthArray(typ.encoding) {
        // only a constant length stands in the metadata
      } else if !IsVariableLengthArray(typ.encoding) {
        var countSpace: u32 := metaEnd - stackTop.next;
        if countSpace < 2 {
          ok := SetErrorState(InvalidData);
        } else {
          stackTop := stackTop.(next := stackTop.next + 2);
        }
      } else {
        ok := SetErrorState(NotSupported);
      }
    }

    // ---- opening ----

    /** Checks the tracepoint name against the header's level and takes the keyword from it. */
    method ParseTracepointName(name: bytes) returns (accepted: bool)
      modifies `keyword
      ensures accepted == TracepointName.ParseName(name, header.level).Accepted?
      ensures accepted ==> keyword == TracepointName.ParseName(name, header.level).keyword
    {
      hide TracepointName.HexRun, TracepointName.AttributesOk;
      var pos := |name|;
      while pos > 0 && name[pos - 1] != TracepointName.UNDERSCORE
        invariant 0 <= pos <= |name|
        invariant TracepointName.AfterUnderscore(name, |name|) == TracepointName.AfterUnderscore(name, pos)
      {
        pos := pos - 1;
      }
      if pos == 0 || pos >= |name| || name[pos] != TracepointName.LEVEL_MARK {
        return false;
      }
      var level: u64;
      level, pos := TracepointName.LowercaseHexToInt(name, pos + 1);
      if level != header.level || pos >= |name| || name[pos] != TracepointName.KEYWORD_MARK {
        return false;
      }
      keyword, pos := TracepointName.LowercaseHexToInt(name, pos + 1);
      accepted := CheckAttributes(name, pos);
    }

    method CheckAttributes(name: bytes, start: nat) returns (ok: bool)
      requires start <= |name|
      ensures ok == TracepointName.AttributesOk(name, start)
    {
      var pos := start;
      while pos < |name|
        invariant 0 <= pos <= |name|
        invariant TracepointName.AttributesOk(name, start) == TracepointName.AttributesOk(name, pos)
      {
        var ch := name[pos];
        if !TracepointName.IsUpper(ch) {
          return false;
        }
        ghost var first := pos + 1;
        pos := pos + 1;
        while pos < |name| && TracepointName.IsOptionChar(name[pos])
          invariant first <= pos <= |name|
          invariant TracepointName.OptionEnd(name, first) == TracepointName.OptionEnd(name, pos)
        {
          pos := pos + 1;
        }
      }
      return true;
    }

    ghost function Found(): Extents
      reads this
    {
      Extents(metaStart, metaEnd, activityIdStart, activityIdLen)
    }

    /** Walks the chain of extensions and records the metadata and activity extents. */
    method ReadExtensions(data: bytes) returns (ok: bool, end: nat)
      requires HEADER_SIZE <= |data| < 0x8000_0000 && Found() == NO_EXTENTS
      modifies `metaStart, `metaEnd, `activityIdStart, `activityIdLen
      ensures ok ==> Extensions(bigEndian, data, HEADER_SIZE, NO_EXTENTS) == ExtensionResult.Found(Found(), end)
      ensures !ok ==> Extensions(bigEndian, data, HEADER_SIZE, NO_EXTENTS) == Malformed
    {
      hide ReadU16;
      var pos := HEADER_SIZE;
      var chain := true;
      while chain
        invariant HEADER_SIZE <= pos <= |data|
        invariant Extensions(bigEndian, data, HEADER_SIZE, NO_EXTENTS)
               == if chain then Extensions(bigEndian, data, pos, Found()) else ExtensionResult.Found(Found(), pos)
        decreases |data| - pos + if chain then 1 else 0
      {
        var left: u32 := |data| - pos;
        if left < EXTENSION_SIZE {
          return false, pos;
        }
        var size := ReadU16(bigEndian, data, pos);
        pos := pos + 2;
        var kind := ReadU16(bigEndian, data, pos);
        pos := pos + 2;
        left := |data| - pos;
        if left < size {
          return false, pos;
        }
        var value := kind % KIND_CHAIN_FLAG;
        if value == KIND_INVALID {
          return false, pos;
        } else if value == KIND_METADATA {
          if metaStart != 0 {
            return false, pos;
          }
          metaStart := pos;
          metaEnd := metaStart + size;
        } else if value == KIND_ACTIVITY_ID {
          if activityIdStart != 0 || (size != 16 && size != 32) {
            return false, pos;
          }
          activityIdStart := pos;
          activityIdLen := size;
        }
        pos := pos + size;
        chain := kind >= KIND_CHAIN_FLAG;
      }
      return true, pos;
    }

    method FindNameEnd(data: bytes) returns (end: nat)
      requires metaStart <= metaEnd <= |data|
      ensures end == FindZero(data, metaStart, metaEnd)
    {
      end := metaStart;
      while end < metaEnd && data[end] != 0
        invariant metaStart <= end <= metaEnd
        invariant FindZero(data, metaStart, metaEnd) == FindZero(data, end, metaEnd)
      {
        end := end + 1;
      }
    }

    /** Finds the metadata, the activity section, the event's name and its payload. */
    method FindExtents(data: bytes) returns (error: EnumeratorError)
      requires HEADER_SIZE <= |data| < 0x8000_0000 && bigEndian == IsBigEndian(header.flags)
      modifies `metaStart, `metaEnd, `activityIdStart, `activityIdLen, `eventNameLen, `dataStart
      ensures var r := OpenExtensions(header, keyword, data);
              if r.Refused? then error == r.error != Success
              else
                && error == Success && Ev(data) == r.ev && header == r.header && keyword == r.keyword
                && activityIdStart == r.activityStart && activityIdLen == r.activityLen
    {
      hide Extensions, ReadU16, FindZero;
      metaStart, metaEnd, activityIdStart, activityIdLen := 0, 0, 0, 0;
      var pos := HEADER_SIZE;
      if HasExtensionFlag(header.flags) {
        var ok;
        ok, pos := ReadExtensions(data);
        if !ok {
          return InvalidData;
        }
      }
      if metaStart == 0 {
        return NotSupported;
      }
      ExtentsInData(header, data);
      var nameEnd := FindNameEnd(data);
      if nameEnd >= metaEnd {
        return InvalidData;
      }
      eventNameLen := nameEnd - metaStart;
      dataStart := pos;
      return Success;
    }

    /** Reads the event header and checks it against the tracepoint name. */
    method ReadEventHeader(name: bytes, data: bytes) returns (error: EnumeratorError)
      modifies `header, `keyword, `bigEndian
      ensures error != Success ==> Open(name, data) == Refused(error)
      ensures error == Success ==>
                && HEADER_SIZE <= |data| < 0x8000_0000 && bigEndian == IsBigEndian(header.flags)
                && Open(name, data) == OpenExtensions(header, keyword, data)
    {
      hide TracepointName.ParseName, OpenExtensions, ReadU16, IsKnown, HasLittleEndianFlag;
      if |data| < HEADER_SIZE || |data| >= 0x8000_0000 || |name| >= TracepointName.NAME_MAX {
        return InvalidParameter;
      }
      var be := IsBigEndian(data[0]);
      bigEndian := be;
      header := EventHeader(data[0], data[1], ReadU16(be, data, 2), ReadU16(be, data, 4), data[6], data[7]);
      if !IsKnown(header.flags) {
        return NotSupported;
      }
      var accepted := ParseTracepointName(name);
      return if accepted then Success else NotSupported;
    }

    /** `enumerate_with_name_and_data`: `Success` with the context before the first item, or why not. */
    method Enumerate(name: bytes, data: bytes, moveNextLimit: u32) returns (error: EnumeratorError)
      requires Shape()
      modifies this
      ensures Shape()
      ensures var r := Open(name, data);
              if r.Refused? then error == r.error && View() == old(View())
              else
                && error == Success && Valid(data)
                && Ev(data) == r.ev && View() == Reset(r.ev, old(View()))
                && moveNextRemaining == moveNextLimit
                && header == r.header && keyword == r.keyword
                && activityIdStart == r.activityStart && activityIdLen == r.activityLen
    {
      hide TracepointName.ParseName, OpenExtensions, ReadU16, Inv, EnumeratorModel.Reset, Open;
      error := ReadEventHeader(name, data);
      if error != Success {
        return;
      }
      error := FindExtents(data);
      if error == Success {
        OpenedIsValid(name, data, View());
        ResetImpl(data, moveNextLimit);
      }
    }

    method ResetImpl(data: bytes, moveNextLimit: u32)
      requires Shape() && Ev(data).Valid()
      modifies `dataPosRaw, `moveNextRemaining, `stackTop, `stackIndex, `state, `substate, `lastError
      modifies `dataPosCooked, `itemSizeRaw, `itemSizeCooked
      ensures Valid(data) && moveNextRemaining == moveNextLimit
      ensures View() == Reset(Ev(data), old(View()))
    {
      hide Inv, CanRead, Step, StackOk, SubInv, Frames, EnumeratorModel.NextProperty;
      ResetReads(Ev(data), View());
      dataPosRaw := dataStart;
      moveNextRemaining := moveNextLimit;
      stackTop := stackTop.(next := metaStart + eventNameLen + 1, remaining := 255);
      stackIndex := 0;
      NoFrames();
      SetState(StateBeforeFirstItem, BeforeFirstItem);
      lastError := Success;
      assert View() == EnumeratorModel.Reset(Ev(data), old(View()));
    }

    /** `ValueSimpleArrayElement` and `ValueComplexArrayElement`: on to the next element or the end. */
    method MoveToElement(data: bytes) returns (moved: bool)
      requires Valid(data) && (substate == ValueSimpleArrayElement || substate == ValueComplexArrayElement)
      modifies `dataPosRaw, `stackTop, `state, `substate, `lastError
      modifies `elementSize, `dataPosCooked, `itemSizeRaw, `itemSizeCooked
      ensures Shape() && View() == Step(Ev(data), old(View())) && moved == IsItem(substate)
    {
      hide Frames;
      ghost var m := View();
      ElementMoves(Ev(data), m);
      hide CanRead, OnField, TypeOf, EnumeratorModel.StartValue, Step, Inv, EndState;
      dataPosRaw := dataPosRaw + itemSizeRaw;
      stackTop := stackTop.(index := stackTop.index + 1);
      assert View() == NextElement(m);
      hide NextElement;
      if stackTop.count == stackTop.index {
        SetEndState(StateArrayEnd, ArrayEnd);
        moved := true;
      } else if substate == ValueSimpleArrayElement {
        StartValueSimple();
        moved := true;
      } else {
        moved := StartValue(data);
      }
    }

    /** `ArrayBegin`: to the first element, or straight to the end of an empty array. */
    method EnterArray(data: bytes) returns (moved: bool)
      requires Valid(data) && substate == ArrayBegin
      modifies `state, `substate, `lastError, `elementSize, `dataPosCooked, `itemSizeRaw, `itemSizeCooked
      ensures Shape() && View() == Step(Ev(data), old(View())) && moved == IsItem(substate)
    {
      hide Frames, ReadType, NameEnd, StackOk, EnumeratorModel.StartValue, EnumeratorModel.NextProperty, SkipFields;
      if stackTop.count == 0 {
        SetEndState(StateArrayEnd, ArrayEnd);
        moved := true;
      } else if elementSize != 0 {
        itemSizeCooked := elementSize;
        itemSizeRaw := elementSize;
        SetState(StateValue, ValueSimpleArrayElement);
        StartValueSimple();
        moved := true;
      } else if WithoutFlags(fieldType.encoding) != ENCODING_STRUCT {
        SetState(StateValue, ValueComplexArrayElement);
        moved := StartValue(data);
      } else {
        StartStruct();
        moved := true;
      }
    }

    /** `ArrayEnd`: an empty array of struct still has its members' metadata to pass. */
    method LeaveArray(data: bytes) returns (moved: bool)
      requires Valid(data) && substate == ArrayEnd
      modifies `dataPosRaw, `stackTop, `stackIndex, `state, `substate, `lastError
      modifies `elementSize, `fieldType, `dataPosCooked, `itemSizeRaw, `itemSizeCooked
      ensures Shape() && View() == Step(Ev(data), old(View())) && moved == IsItem(substate)
    {
      hide Frames, ReadType, NameEnd, StackOk, EnumeratorModel.StartValue, EnumeratorModel.NextProperty, SkipFields;
      if WithoutFlags(fieldType.encoding) == ENCODING_STRUCT && stackTop.count == 0 {
        var ok := SkipStructMetadata(data);
        if !ok {
          return false;
        }
      }
      moved := NextProperty(data);
    }

    /** The frame of the struct's parent goes on the stack; the top frame now counts the struct's fields. */
    method PushFrame()
      requires Shape() && stackIndex < STRUCT_NEST_LIMIT
      modifies `stackTop, `stackIndex, stack
      ensures Shape() && View() == PushStruct(old(View()))
    {
      stack[stackIndex] := stackTop;
      stackIndex := stackIndex + 1;
      stackTop := stackTop.(remaining := fieldType.format);
      assert Frames() == old(Frames()) + [old(stackTop)];
    }

    /** `StructBegin`: push the frame and go to the first member. */
    method EnterStruct(data: bytes) returns (moved: bool)
      requires Valid(data) && substate == StructBegin
      modifies `dataPosRaw, `stackTop, `stackIndex, `state, `substate, `lastError
      modifies `elementSize, `fieldType, `dataPosCooked, `itemSizeRaw, `itemSizeCooked, stack
      ensures Shape() && View() == Step(Ev(data), old(View())) && moved == IsItem(substate)
    {
      EnterMoves(Ev(data), View());
      hide CanRead, Inv, Step, EnumeratorModel.NextProperty;
      if stackIndex >= STRUCT_NEST_LIMIT {
        moved := SetErrorState(StackOverflow);
      } else {
        PushFrame();
        moved := NextProperty(data);
      }
    }

    /** `StructEnd`: the next element of an array of struct, the end of the array, or the next field. */
    method LeaveStruct(data: bytes) returns (moved: bool)
      requires Valid(data) && substate == StructEnd
      modifies `dataPosRaw, `stackTop, `stackIndex, `state, `substate, `lastError
      modifies `elementSize, `fieldType, `dataPosCooked, `itemSizeRaw, `itemSizeCooked
      ensures Shape() && View() == Step(Ev(data), old(View())) && moved == IsItem(substate)
    {
      hide Frames, ReadType, NameEnd, StackOk, EnumeratorModel.NextProperty, SkipFields;
      stackTop := stackTop.(index := stackTop.index + 1);
      assert View() == old(View()).(top := stackTop);
      if stackTop.count != stackTop.index {
        StartStruct();
        moved := true;
      } else if IsArray(fieldType.encoding) {
        SetEndState(StateArrayEnd, ArrayEnd);
        moved := true;
      } else {
        moved := NextProperty(data);
      }
    }

    method MoveNextImpl(data: bytes) returns (moved: bool)
      requires Valid(data) && CanMoveNext(substate)
      modifies `dataPosRaw, `moveNextRemaining, `stackTop, `stackIndex, `state, `substate, `lastError
      modifies `elementSize, `fieldType, `dataPosCooked, `itemSizeRaw, `itemSizeCooked, stack
      ensures Valid(data) && moved == IsItem(substate)
      ensures (View(), moveNextRemaining) == MoveNext(Ev(data), old(View()), old(moveNextRemaining))
    {
      hide Frames, CanRead, Inv, Step, EnumeratorModel.NextProperty;
      if moveNextRemaining == 0 {
        LimitInv(Ev(data), View());
        moved := SetErrorState(ImplementationLimit);
        return;
      }
      StepInv(Ev(data), View());
      moveNextRemaining := moveNextRemaining - 1;
      assert View() == old(View());
      match substate
      case BeforeFirstItem =>
        LeaveStart(Ev(data), View());
        moved := NextProperty(data);
      case ValueScalar =>
        LeaveScalar(Ev(data), View());
        dataPosRaw := dataPosRaw + itemSizeRaw;
        assert View() == old(View()).(pos := dataPosRaw);
        moved := NextProperty(data);
      case ValueSimpleArrayElement =>
        moved := MoveToElement(data);
      case ValueComplexArrayElement =>
        moved := MoveToElement(data);
      case ArrayBegin =>
        moved := EnterArray(data);
      case ArrayEnd =>
        moved := LeaveArray(data);
      case StructBegin =>
        moved := EnterStruct(data);
      case StructEnd =>
        moved := LeaveStruct(data);
    }

    method MoveNextSiblingImpl(data: bytes) returns (moved: bool)
      requires Valid(data) && CanMoveNext(substate)
      modifies `dataPosRaw, `moveNextRemaining, `stackTop, `stackIndex, `state, `substate, `lastError
      modifies `elementSize, `fieldType, `dataPosCooked, `itemSizeRaw, `itemSizeCooked, stack
      ensures Valid(data) && moved == IsItem(substate)
      ensures (View(), moveNextRemaining) == MoveNextSibling(Ev(data), old(View()), old(moveNextRemaining), 0)
    {
      hide ReadType, NameEnd, StackOk, EnumeratorModel.NextProperty, SkipFields, Step, Inv;
      ghost var ev := Ev(data);
      var depth := 0; // negative after leaving the end of an array or struct
      while true
        invariant Valid(data) && CanMoveNext(substate)
        invariant MoveNextSibling(ev, View(), moveNextRemaining, depth)
               == MoveNextSibling(ev, old(View()), old(moveNextRemaining), 0)
        decreases moveNextRemaining
      {
        match state {
          case StateArrayEnd => depth := depth - 1;
          case StateStructEnd => depth := depth - 1;
          case StateStructBegin => depth := depth + 1;
          case StateArrayBegin =>
            if elementSize == 0 || moveNextRemaining == 0 {
              depth := depth + 1;
            } else {
              moved := JumpToSibling(data);
              if !moved || depth <= 0 {
                return;
              }
              continue;
            }
          case _ =>
        }
        moved := MoveNextImpl(data);
        if !moved || depth <= 0 {
          return;
        }
      }
    }

    /** Inside `move_next_sibling`: pass all elements of a simple array at once. */
    method JumpToSibling(data: bytes) returns (moved: bool)
      requires Valid(data) && substate == ArrayBegin && elementSize != 0 && moveNextRemaining != 0
      modifies `dataPosRaw, `moveNextRemaining, `stackTop, `stackIndex, `state, `substate, `lastError
      modifies `elementSize, `fieldType, `dataPosCooked, `itemSizeRaw, `itemSizeCooked
      ensures Valid(data) && moved == IsItem(substate)
      ensures View() == EnumeratorModel.NextProperty(Ev(data), JumpArray(old(View())))
      ensures moveNextRemaining == old(moveNextRemaining) - 1
    {
      hide Frames, ReadType, NameEnd, StackOk, EnumeratorModel.NextProperty, SkipFields;
      NextPropertyInv(Ev(data), JumpArray(View()));
      dataPosRaw := dataPosRaw + stackTop.count * elementSize;
      moveNextRemaining := moveNextRemaining - 1;
      assert View() == JumpArray(old(View()));
      moved := NextProperty(data);
    }
  }
}

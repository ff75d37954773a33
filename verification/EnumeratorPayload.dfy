/**
 * Payload conservation on any bytes: at every state of every run that has not failed, writing the
 * items passed so far back in wire form gives exactly the payload bytes up to the data cursor, with
 * no gap and no overlap.
 */
module EnumeratorPayload {
  import opened Bytes
  import opened FieldTypes
  import opened EnumeratorModel
  import opened EnumeratorRuns

  /** The bytes of the current item. */
  function ItemBytes(ev: Event, m: Core): bytes
    requires Inv(ev, m) && IsItem(m.sub)
  {
    ev.data[m.cookedPos..m.cookedPos + m.cookedSize]
  }

  /** A value in wire form: a length prefix in characters, or a zero character unless the data ran out. */
  function WireValue(ev: Event, m: Core): bytes
    requires Inv(ev, m) && StateOf(m.sub) == StateValue
  {
    var base := WithoutFlags(m.ft.encoding);
    if IsCounted(base) then WriteU16(ev.bigEndian, CharCount(m.cookedSize, CharSize(base))) + ItemBytes(ev, m)
    else if IsZString(base) && m.cookedPos + m.cookedSize + CharSize(base) <= |ev.data| then
      ItemBytes(ev, m) + Zeros(CharSize(base))
    else ItemBytes(ev, m)
  }

  function CharCount(size: nat, charSize: nat): u16
    requires charSize > 0
  {
    (size / charSize) % 65536
  }

  /** What has been read on arrival at an item: the count of a variable-length array. */
  function ReadOnArrival(ev: Event, m: Core): bytes
    requires Inv(ev, m)
  {
    if m.sub == ArrayBegin && IsVariableLengthArray(m.ft.encoding) then WriteU16(ev.bigEndian, m.top.count) else []
  }

  /** What is passed on leaving an item: its value. */
  function PassedOnLeaving(ev: Event, m: Core): bytes
    requires Inv(ev, m)
  {
    if StateOf(m.sub) == StateValue then WireValue(ev, m) else []
  }

  /** The items of a run written back in order. */
  function Passed(ev: Event, run: seq<Core>): bytes
    requires IsRun(ev, run)
  {
    if |run| == 1 then []
    else
      var before := run[..|run| - 1];
      Passed(ev, before) + PassedOnLeaving(ev, Last(before)) + ReadOnArrival(ev, Last(run))
  }

  /** The bytes about to be passed are the item's wire form. */
  ghost predicate OnWire(ev: Event, m: Core)
    requires Inv(ev, m)
  {
    StateOf(m.sub) == StateValue ==> |WireValue(ev, m)| == m.rawSize && At(ev.data, m.pos, WireValue(ev, m))
  }

  lemma StartValueOnWire(ev: Event, m: Core)
    requires Starting(ev, m) && WithoutFlags(m.ft.encoding) != ENCODING_STRUCT
    requires Inv(ev, StartValue(ev, m)) && StartValue(ev, m).sub != Error
    requires m.sub == ValueScalar || m.sub == ValueComplexArrayElement
    ensures OnWire(ev, StartValue(ev, m))
    ensures StartValue(ev, m).pos == m.pos && StartValue(ev, m).sub == m.sub
  {
    hide ReadType, NameEnd, StackOk, OnField, WithoutFlags, WireValue, OnWire, ScanZero, Inv;
    var m' := StartValue(ev, m);
    var base := WithoutFlags(m.ft.encoding);
    if IsCounted(base) {
      assert m' == StartValueString(ev, m.(cookedPos := m.pos, elementSize := 0), CharSize(base));
      CountedOnWire(ev, m');
    } else if IsZString(base) {
      assert m' == StartValueZString(ev, m.(cookedPos := m.pos, elementSize := 0), CharSize(base));
      ZStringOnWire(ev, m');
    } else {
      FixedOnWire(ev, m');
    }
  }

  lemma FixedOnWire(ev: Event, m: Core)
    requires Inv(ev, m) && StateOf(m.sub) == StateValue && IsFixed(WithoutFlags(m.ft.encoding))
    requires m.cookedPos == m.pos && m.rawSize == m.cookedSize
    ensures OnWire(ev, m)
  {
  }

  lemma CharsCounted(count: u16, charSize: nat)
    requires charSize == 1 || charSize == 2 || charSize == 4
    ensures CharCount(count * charSize, charSize) == count
  {
  }

  lemma CountedOnWire(ev: Event, m: Core)
    requires Inv(ev, m) && StateOf(m.sub) == StateValue && IsCounted(WithoutFlags(m.ft.encoding))
    requires m.cookedPos == m.pos + 2 && m.rawSize == m.cookedSize + 2
    requires m.cookedSize == ev.U16(m.pos) * CharSize(WithoutFlags(m.ft.encoding))
    ensures OnWire(ev, m)
  {
    hide ReadType, NameEnd, StackOk, OnField, SubInv, CharSize, WithoutFlags, ReadU16, CharCount;
    var cch := ev.U16(m.pos);
    CharsCounted(cch, CharSize(WithoutFlags(m.ft.encoding)));
    WrittenRead(ev.bigEndian, ev.data, m.pos);
    AtJoin(ev.data, m.pos, WriteU16(ev.bigEndian, cch), ItemBytes(ev, m));
  }

  /** A zero-terminated string is followed by its zero character, or ends with the data. */
  lemma ZStringEnds(ev: Event, m: Core, size: nat)
    requires ev.Valid() && m.pos <= |ev.data| && (size == 1 || size == 2 || size == 4)
    requires m == StartValueZString(ev, m, size)
    ensures var end := m.pos + m.cookedSize;
            && end <= |ev.data|
            && if end + size <= |ev.data| then
                 m.rawSize == m.cookedSize + size && ev.data[end..end + size] == Zeros(size)
               else m.rawSize == m.cookedSize
  {
    hide ScanZero, Zeros;
  }

  lemma ZStringOnWire(ev: Event, m: Core)
    requires Inv(ev, m) && StateOf(m.sub) == StateValue && IsZString(WithoutFlags(m.ft.encoding))
    requires m == StartValueZString(ev, m, CharSize(WithoutFlags(m.ft.encoding))) && m.cookedPos == m.pos
    ensures OnWire(ev, m)
  {
    hide ReadType, NameEnd, StackOk, OnField, SubInv, StartValueZString, CharSize, Zeros;
    var size := CharSize(WithoutFlags(m.ft.encoding));
    ZStringEnds(ev, m, size);
    var end := m.pos + m.cookedSize;
    if end + size <= |ev.data| {
      assert ItemBytes(ev, m) == ev.data[m.pos..end];
      AtJoin(ev.data, m.pos, ItemBytes(ev, m), Zeros(size));
    }
  }

  /** From `p`, the arrival at `m` read exactly what `ReadOnArrival` writes. */
  ghost predicate Arrived(ev: Event, p: nat, m: Core)
    requires Inv(ev, m)
  {
    m.sub != Error ==>
      && OnWire(ev, m)
      && p + |ReadOnArrival(ev, m)| == m.pos && At(ev.data, p, ReadOnArrival(ev, m))
  }

  lemma ScalarReadArrives(ev: Event, m: Core)
    requires FieldIsRead(ev, m) && Inv(ev, FieldRead(ev, m)) && !IsArray(m.ft.encoding)
    ensures Arrived(ev, m.pos, FieldRead(ev, m))
  {
    hide ReadType, NameEnd, StackOk, StartValue, WireValue, StartArray, ReadU16;
    if m.ft.encoding != ENCODING_STRUCT {
      var m1 := m.(top := m.top.(count := 1), sub := ValueScalar);
      if StartValue(ev, m1).sub != Error {
        StartValueOnWire(ev, m1);
      }
    }
  }

  lemma ArrayReadArrives(ev: Event, m: Core)
    requires FieldIsRead(ev, m) && Inv(ev, FieldRead(ev, m)) && IsArray(m.ft.encoding)
    ensures Arrived(ev, m.pos, FieldRead(ev, m))
  {
    hide ReadType, NameEnd, StackOk, StartValue, WireValue;
    if IsVariableLengthArray(m.ft.encoding) && |ev.data| - m.pos >= 2 {
      WrittenRead(ev.bigEndian, ev.data, m.pos);
    }
  }

  lemma FieldReadArrives(ev: Event, m: Core)
    requires FieldIsRead(ev, m) && Inv(ev, FieldRead(ev, m))
    ensures Arrived(ev, m.pos, FieldRead(ev, m))
  {
    hide FieldIsRead, Inv, FieldRead, Arrived;
    if IsArray(m.ft.encoding) {
      ArrayReadArrives(ev, m);
    } else {
      ScalarReadArrives(ev, m);
    }
  }

  lemma NextPropertyArrives(ev: Event, n: Core)
    requires CanRead(ev, n) && n.top.remaining <= TOP_LEVEL_FIELD_LIMIT
    ensures Inv(ev, NextProperty(ev, n)) && Arrived(ev, n.pos, NextProperty(ev, n))
  {
    hide ReadType, NameEnd, StackOk, FieldRead, Inv;
    NextPropertyInv(ev, n);
    if n.top.remaining != 0 && n.top.next != ev.metaEnd {
      var top0 := n.top.(remaining := n.top.remaining - 1, index := 0, name := n.top.next);
      var (ft, top1) := ReadField(ev, top0);
      if ft.encoding != ENCODING_INVALID {
        ReadFieldOnField(ev, top0);
        FieldReadArrives(ev, n.(ft := ft, top := top1));
      }
    }
  }

  lemma ComplexElementArrives(ev: Event, m: Core)
    requires m.sub == ValueComplexArrayElement
    requires Inv(ev, m) && OnWire(ev, m) && Inv(ev, Step(ev, m))
    ensures Arrived(ev, m.pos + |PassedOnLeaving(ev, m)|, Step(ev, m))
  {
    ElementMoves(ev, m);
    ElementStarting(ev, m);
    hide Inv, CanRead, StartValue, NextProperty, WithoutFlags, Step, WireValue, OnWire;
    var m1 := NextElement(m);
    LeavesValue(ev, m);
    if m1.top.count != m1.top.index {
      ComplexArrives(ev, m1);
    } else {
      EndArrives(ev, m1);
    }
  }

  lemma SimpleElementArrives(ev: Event, m: Core)
    requires m.sub == ValueSimpleArrayElement
    requires Inv(ev, m) && OnWire(ev, m) && Inv(ev, Step(ev, m))
    ensures Arrived(ev, m.pos + |PassedOnLeaving(ev, m)|, Step(ev, m))
  {
    ElementMoves(ev, m);
    hide Inv, CanRead, StartValue, NextProperty, WithoutFlags, Step, WireValue, OnWire;
    var m1 := NextElement(m);
    LeavesValue(ev, m);
    if m1.top.count != m1.top.index {
      SimpleArrives(ev, Step(ev, m));
    } else {
      EndArrives(ev, m1);
    }
  }

  /** Leaving a value passes all its bytes. */
  lemma LeavesValue(ev: Event, m: Core)
    requires Inv(ev, m) && OnWire(ev, m) && StateOf(m.sub) == StateValue
    ensures |PassedOnLeaving(ev, m)| == m.rawSize
  {
    hide Inv, WireValue;
  }

  /** Nothing is read where an array ends. */
  lemma EndArrives(ev: Event, m1: Core)
    requires Inv(ev, EndState(m1, ArrayEnd))
    ensures Arrived(ev, m1.pos, EndState(m1, ArrayEnd))
  {
    hide SubInv, ReadType, StackOk, OnField;
    assert ev.data[m1.pos..m1.pos] == [];
  }

  lemma ArrayBeginArrives(ev: Event, m: Core)
    requires m.sub == ArrayBegin && Inv(ev, m) && Inv(ev, Step(ev, m))
    ensures Arrived(ev, m.pos, Step(ev, m))
  {
    hide ReadType, NameEnd, StackOk, OnField, StartValue, NextProperty, SkipFields, WithoutFlags, SubInv, WireValue;
    if m.top.count != 0 && m.elementSize == 0 && WithoutFlags(m.ft.encoding) != ENCODING_STRUCT {
      ElementStarting(ev, m);
      ComplexArrives(ev, m.(sub := ValueComplexArrayElement));
    } else if m.top.count != 0 && m.elementSize != 0 {
      SimpleArrives(ev, Step(ev, m));
    }
  }

  lemma SimpleArrives(ev: Event, m: Core)
    requires Inv(ev, m) && m.sub == ValueSimpleArrayElement
    ensures Arrived(ev, m.pos, m)
  {
    FixedOnWire(ev, m);
  }

  lemma ComplexArrives(ev: Event, m: Core)
    requires Starting(ev, m) && m.sub == ValueComplexArrayElement && Inv(ev, StartValue(ev, m))
    requires IsLeaf(WithoutFlags(m.ft.encoding))
    ensures Arrived(ev, m.pos, StartValue(ev, m))
  {
    hide ReadType, NameEnd, StackOk, OnField, WithoutFlags, StartValue, Inv, WireValue;
    if StartValue(ev, m).sub != Error {
      StartValueOnWire(ev, m);
    }
  }

  lemma StructBeginArrives(ev: Event, m: Core)
    requires Inv(ev, m) && m.sub == StructBegin && Inv(ev, Step(ev, m))
    ensures Arrived(ev, m.pos, Step(ev, m))
  {
    hide ReadType, NameEnd, NextProperty;
    if |m.stack| < STRUCT_NEST_LIMIT {
      NextPropertyArrives(ev, PushStruct(m));
    }
  }

  lemma StructEndArrives(ev: Event, m: Core)
    requires Inv(ev, m) && m.sub == StructEnd && Inv(ev, Step(ev, m))
    ensures Arrived(ev, m.pos, Step(ev, m))
  {
    hide ReadType, NameEnd, NextProperty, StackOk, OnField;
    var m1 := m.(top := m.top.(index := m.top.index + 1));
    if m1.top.count == m1.top.index && !IsArray(m.ft.encoding) {
      NextPropertyArrives(ev, m1);
    }
  }

  lemma StepArrives(ev: Event, m: Core)
    requires Inv(ev, m) && OnWire(ev, m) && CanMoveNext(m.sub)
    ensures Inv(ev, Step(ev, m))
    ensures Arrived(ev, m.pos + |PassedOnLeaving(ev, m)|, Step(ev, m))
  {
    hide ReadType, NameEnd, StackOk, OnField, NextProperty, SkipFields, StartValue, Arrived, WireValue;
    StepInv(ev, m);
    match m.sub
    case BeforeFirstItem => NextPropertyArrives(ev, m);
    case ValueScalar => NextPropertyArrives(ev, m.(pos := m.pos + m.rawSize));
    case ValueSimpleArrayElement => SimpleElementArrives(ev, m);
    case ValueComplexArrayElement => ComplexElementArrives(ev, m);
    case ArrayBegin => ArrayBeginArrives(ev, m);
    case ArrayEnd =>
      if WithoutFlags(m.ft.encoding) == ENCODING_STRUCT && m.top.count == 0 {
        var m1 := SkipStructMetadata(ev, m);
        if m1.sub == Error {
          ErrorArrives(ev, m.pos, m1);
        } else {
          NextPropertyArrives(ev, m1);
        }
      } else {
        NextPropertyArrives(ev, m);
      }
    case StructBegin => StructBeginArrives(ev, m);
    case StructEnd => StructEndArrives(ev, m);
  }

  lemma ErrorArrives(ev: Event, p: nat, m: Core)
    requires Inv(ev, m) && m.sub == Error
    ensures Arrived(ev, p, m)
  {
  }

  lemma CursorInData(ev: Event, m: Core)
    requires Inv(ev, m)
    ensures ev.dataStart <= m.pos <= |ev.data|
  {
  }

  /** The payload up to the data cursor is the items passed so far, written back. */
  lemma {:induction false} PayloadConserved(ev: Event, run: seq<Core>)
    requires IsRun(ev, run) && Last(run).sub != Error && run[0].pos == ev.dataStart
    ensures OnWire(ev, Last(run)) && ev.dataStart <= Last(run).pos <= |ev.data|
    ensures ev.data[ev.dataStart..Last(run).pos] == Passed(ev, run)
    decreases |run|
  {
    hide Inv, Step, WireValue, ReadOnArrival;
    CursorInData(ev, Last(run));
    if |run| == 1 {
      assert !IsItem(run[0].sub);
    } else {
      var before := run[..|run| - 1];
      var m, m' := Last(before), Last(run);
      PayloadConserved(ev, before);
      StepArrives(ev, m);
      var left := PassedOnLeaving(ev, m);
      assert At(ev.data, m.pos, left);
      AtJoin(ev.data, ev.dataStart, Passed(ev, before), left);
      AtJoin(ev.data, ev.dataStart, Passed(ev, before) + left, ReadOnArrival(ev, m'));
    }
  }
}

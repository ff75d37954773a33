/**
 * Events that can be received, each of which is opened, and on each of which the decoder does something
 * one might not expect: where the flat skip, the nested walk and the decoder's own traversal part.
 */
module OpenedExamples {
  import opened Bytes
  import opened FieldTypes
  import opened EnumeratorModel
  import opened EnumeratorRuns
  import opened EnumeratorSkip
  import opened EventFraming
  import opened EventOpening
  import opened Wrappers
  import TracepointName

  // ---- opening them ----

  /** A tracepoint of level 0 and no keyword. */
  function PlainName(): bytes { TracepointName.NameFor([], [], 0, 0) }

  /** An event without activity and name, whose metadata is all in one extension, is opened. */
  lemma BareOpens(ev: Event)
    requires 0 < |ev.data| < 0x8000_0000 && ev == Event(ev.data, false, 12, ev.metaEnd, 0, ev.metaEnd)
    requires 12 < ev.metaEnd <= |ev.data| && ev.metaEnd < 268
    requires ev.data[..13] == [6, 0, 0, 0, 0, 0, 0, 0, ev.metaEnd - 12, 0, 1, 0, 0]
    ensures Open(PlainName(), ev.data) == Opened(EventHeader(6, 0, 0, 0, 0, 0), 0, ev, 0, 0)
  {
    hide TracepointName.ParseName, TracepointName.NameFor;
    var start := [6, 0, 0, 0, 0, 0, 0, 0, ev.metaEnd - 12, 0, 1, 0, 0];
    assert forall i :: 0 <= i < 13 ==> ev.data[i] == start[i];
    TracepointName.NameRoundTrip([], [], 0, 0, 0);
    assert FindZero(ev.data, 12, ev.metaEnd) == 12;
  }

  /** The next of these states is where `move_next` leads. */
  ghost predicate MovesAt(ev: Event, states: seq<Core>, k: nat)
    requires k + 1 < |states|
  {
    Inv(ev, states[k]) ==> CanMoveNext(states[k].sub) && Step(ev, states[k]) == states[k + 1]
  }

  lemma {:induction false} StatesAreRun(ev: Event, states: seq<Core>, n: nat)
    requires 0 < n <= |states| && Inv(ev, states[0]) && states[0].sub == BeforeFirstItem
    requires forall k :: 0 <= k < n - 1 ==> MovesAt(ev, states, k)
    ensures IsRun(ev, states[..n])
  {
    hide Inv, Step;
    if n > 1 {
      StatesAreRun(ev, states, n - 1);
      assert states[..n][..n - 1] == states[..n - 1];
      assert MovesAt(ev, states, n - 2);
      StepInv(ev, states[n - 2]);
    }
  }

  /** Where its fields are and what they are, for a state that is about to read one. */
  ghost predicate FieldAt(ev: Event, pos: nat, ft: FieldType, typeAt: nat, next: nat) {
    && ev.Valid() && pos < typeAt < ev.metaEnd
    && NameEnd(ev, pos) == typeAt - 1
    && ReadType(ev, typeAt) == (ft, next)
  }

  lemma FieldIsMeta(ev: Event, pos: nat, ft: FieldType, typeAt: nat, next: nat)
    requires FieldAt(ev, pos, ft, typeAt, next) && ft.encoding != ENCODING_INVALID && !SkipsCount(ft)
    ensures MetaField(ev, pos) == Some((ft, next))
  {
    hide NameEnd, ReadType;
  }

  /** Where metadata and payload lie, and how long the event is. */
  ghost predicate Laid(ev: Event, metaEnd: nat, length: nat) {
    && ev.Valid() && ev.metaStart == 12 && ev.nameLen == 0 && ev.metaEnd == metaEnd == ev.dataStart
    && |ev.data| == length
  }

  // ---- a counter that wraps ----

  const VALUE := FieldType(ENCODING_VALUE8, 0, 0)

  /** An array of struct without elements; the fields declared in it number 127, 127 and 4. */
  const WRAPPING := Event(
    [6, 0, 0, 0, 0, 0, 0, 0, 12, 0, 1, 0, 0,
     0, 0xC1, 0x7F,
     0, 0x81, 0x7F,
     0, 0x81, 0x04,
     0, 0x02,
     0, 0, 9],
    false, 12, 24, 0, 24)

  /** What is read of it. */
  ghost predicate WrappingFacts(ev: Event) {
    && Laid(ev, 24, 27) && ev.U16(24) == 0
    && FieldAt(ev, 13, FieldType(0x41, 127, 0), 14, 16)
    && FieldAt(ev, 16, FieldType(1, 127, 0), 17, 19)
    && FieldAt(ev, 19, FieldType(1, 4, 0), 20, 22)
    && FieldAt(ev, 22, VALUE, 23, 24)
  }

  lemma WrappingFields()
    ensures WrappingFacts(WRAPPING)
  {
    var ev := WRAPPING;
    assert NameEnd(ev, 13) == 13 && NameEnd(ev, 16) == 16 && NameEnd(ev, 19) == 19 && NameEnd(ev, 22) == 22;
  }

  /** The true count at the last field is 256: the walk goes on to the end, and the counter stands at zero. */
  lemma WrappingWalk(ev: Event)
    requires WrappingFacts(ev)
    ensures !NeverWraps(ev, 16, 127) && Walk(ev, 16, 127) == Some(24)
  {
    hide FieldAt;
    FieldIsMeta(ev, 16, FieldType(1, 127, 0), 17, 19);
    FieldIsMeta(ev, 19, FieldType(1, 4, 0), 20, 22);
    FieldIsMeta(ev, 22, VALUE, 23, 24);
    hide MetaField;
    FlatIsNested(ev, 16, 127);
    assert FlatWalk(ev, 24, 255) == Some(24);
    assert FlatWalk(ev, 22, 256) == Some(24);
    assert FlatWalk(ev, 19, 253) == Some(24);
    assert !NeverWraps(ev, 22, 256);
    assert !NeverWraps(ev, 19, 253);
  }

  lemma WrappingSkip(ev: Event, m: Core)
    requires WrappingFacts(ev) && CanRead(ev, m) && m.sub != Error && m.top.next == 16
    ensures SkipFields(ev, m, 127) == m.(top := m.top.(name := 19, nameLen := 0, next := 22))
  {
    hide NameEnd, ReadType, StackOk;
    var (m1, ft1) := SkipField(ev, m);
    assert m1 == m.(top := m.top.(name := 16, nameLen := 0, next := 19)) && ft1 == FieldType(1, 127, 0);
    var (m2, ft2) := SkipField(ev, m1);
    assert m2 == m1.(top := m1.top.(name := 19, nameLen := 0, next := 22)) && ft2 == FieldType(1, 4, 0);
    hide SkipField, CanRead;
    SkipFieldsOnce(ev, m, 127);
    SkipFieldsOnce(ev, m1, 253);
    SkipFieldsOnce(ev, m2, 0);
  }

  /** The states that `WRAPPING` is read through. */
  function WrappingRun(ev: Event, m: Core): (run: seq<Core>)
    ensures |run| == 5 && run[0] == Reset(ev, m)
  {
    var structs := FieldType(0x41, 127, 0);
    [Reset(ev, m),
     Core(26, Frame(16, 13, 0, 0, 0, 254), [], ArrayBegin, Success, 0, structs, 26, 0, 0),
     Core(26, Frame(16, 13, 0, 0, 0, 254), [], ArrayEnd, Success, 0, structs, 26, 0, 0),
     Core(26, Frame(24, 22, 0, 0, 1, 253), [], ValueScalar, Success, 1, VALUE, 26, 1, 1),
     Core(27, Frame(24, 22, 0, 0, 1, 253), [], AfterLastItem, Success, 1, VALUE, 27, 0, 0)]
  }

  lemma WrappingMoves(ev: Event, m: Core, k: nat)
    requires WrappingFacts(ev) && k < 4
    ensures MovesAt(ev, WrappingRun(ev, m), k)
  {
    hide ReadType, NameEnd, StackOk, SubInv, SkipFields;
    if k == 2 && Inv(ev, WrappingRun(ev, m)[k]) {
      WrappingSkip(ev, WrappingRun(ev, m)[k]);
    }
  }

  lemma WrappingIsRun(ev: Event, m: Core)
    requires WrappingFacts(ev)
    ensures IsRun(ev, WrappingRun(ev, m))
  {
    ResetReads(ev, m);
    forall k | 0 <= k < 4 ensures MovesAt(ev, WrappingRun(ev, m), k) {
      WrappingMoves(ev, m, k);
    }
    hide WrappingRun, MovesAt, Inv, WrappingFacts;
    StatesAreRun(ev, WrappingRun(ev, m), 5);
    assert WrappingRun(ev, m)[..5] == WrappingRun(ev, m);
  }

  /**
   * The event is opened. The skip of the empty array stops before the last field of its structs, and that
   * field is shown as one of the event's own.
   */
  lemma WrapStopsShort(m: Core) returns (run: seq<Core>)
    ensures Open(PlainName(), WRAPPING.data) == Opened(EventHeader(6, 0, 0, 0, 0, 0), 0, WRAPPING, 0, 0)
    ensures IsRun(WRAPPING, run) && run[0] == Reset(WRAPPING, m) && Last(run).sub == AfterLastItem
    ensures |run| == 5 && run[2].sub == ArrayEnd && run[2].top.next == 16 && run[2].ft.format == 127
    ensures run[3].sub == ValueScalar && run[3].stack == [] && run[3].top.name == 22
    ensures !NeverWraps(WRAPPING, 16, 127) && Walk(WRAPPING, 16, 127) == Some(24)
  {
    BareOpens(WRAPPING);
    WrappingFields();
    hide Open, IsRun, Walk, NeverWraps, WrappingFacts;
    WrappingWalk(WRAPPING);
    WrappingIsRun(WRAPPING, m);
    run := WrappingRun(WRAPPING, m);
  }

  // ---- a cursor that is put back too far ----

  /**
   * An array of two structs of one field, its length in the metadata; the second element is read from
   * byte 16, where the length is.
   */
  const REWINDING := Event(
    [6, 0, 0, 0, 0, 0, 0, 0, 9, 0, 1, 0, 0,
     0, 0xA1, 0x01, 2, 0,
     2, 0, 0x02,
     7, 8, 9],
    false, 12, 21, 0, 21)

  /** What is read of it. */
  ghost predicate RewindingFacts(ev: Event) {
    && Laid(ev, 21, 24) && ev.U16(16) == 2
    && FieldAt(ev, 13, FieldType(0x21, 1, 0), 14, 16)
    && FieldAt(ev, 16, VALUE, 18, 19)
    && FieldAt(ev, 18, VALUE, 20, 21)
    && FieldAt(ev, 19, VALUE, 20, 21)
  }

  lemma RewindingFields()
    ensures RewindingFacts(REWINDING)
  {
    var ev := REWINDING;
    assert NameEnd(ev, 13) == 13 && NameEnd(ev, 17) == 17 && NameEnd(ev, 16) == 17;
    assert NameEnd(ev, 19) == 19 && NameEnd(ev, 18) == 19;
  }

  /** The array's frame between its elements. */
  function ArrayFrame(next: nat, index: nat): Frame { Frame(next, 13, 0, index, 2, 254) }

  /** The states that `REWINDING` is read through. */
  function RewindingRun(ev: Event, m: Core): (run: seq<Core>)
    ensures |run| == 11 && run[0] == Reset(ev, m)
  {
    var structs := FieldType(0x21, 1, 0);
    [Reset(ev, m),
     Core(21, ArrayFrame(18, 0), [], ArrayBegin, Success, 0, structs, 21, 0, 0),
     Core(21, ArrayFrame(18, 0), [], StructBegin, Success, 0, structs, 21, 0, 0),
     Core(21, Frame(21, 18, 1, 0, 1, 0), [ArrayFrame(18, 0)], ValueScalar, Success, 1, VALUE, 21, 1, 1),
     Core(22, ArrayFrame(16, 0), [], StructEnd, Success, 0, structs, 22, 0, 0),
     Core(22, ArrayFrame(16, 1), [], StructBegin, Success, 0, structs, 22, 0, 0),
     Core(22, Frame(19, 16, 1, 0, 1, 0), [ArrayFrame(16, 1)], ValueScalar, Success, 1, VALUE, 22, 1, 1),
     Core(23, ArrayFrame(19, 1), [], StructEnd, Success, 0, structs, 23, 0, 0),
     Core(23, ArrayFrame(19, 2), [], ArrayEnd, Success, 0, structs, 23, 0, 0),
     Core(23, Frame(21, 19, 0, 0, 1, 253), [], ValueScalar, Success, 1, VALUE, 23, 1, 1),
     Core(24, Frame(21, 19, 0, 0, 1, 253), [], AfterLastItem, Success, 1, VALUE, 24, 0, 0)]
  }

  lemma RewindingBegins(ev: Event, m: Core)
    requires RewindingFacts(ev)
    ensures MovesAt(ev, RewindingRun(ev, m), 0)
  {
    hide ReadType, NameEnd, StackOk, SubInv, SkipFields;
  }

  lemma RewindingEnters(ev: Event, m: Core, k: nat)
    requires RewindingFacts(ev) && 1 <= k < 3
    ensures MovesAt(ev, RewindingRun(ev, m), k)
  {
    hide ReadType, NameEnd, StackOk, SubInv, SkipFields;
  }

  lemma RewindingRewinds(ev: Event, m: Core, k: nat)
    requires RewindingFacts(ev) && 3 <= k < 6
    ensures MovesAt(ev, RewindingRun(ev, m), k)
  {
    hide ReadType, NameEnd, StackOk, SubInv, SkipFields;
  }

  lemma RewindingEnds(ev: Event, m: Core, k: nat)
    requires RewindingFacts(ev) && 6 <= k < 10
    ensures MovesAt(ev, RewindingRun(ev, m), k)
  {
    hide ReadType, NameEnd, StackOk, SubInv, SkipFields;
  }

  lemma RewindingIsRun(ev: Event, m: Core)
    requires RewindingFacts(ev)
    ensures IsRun(ev, RewindingRun(ev, m))
  {
    ResetReads(ev, m);
    hide MovesAt, Inv, RewindingFacts;
    forall k | 0 <= k < 10 ensures MovesAt(ev, RewindingRun(ev, m), k) {
      if k == 0 {
        RewindingBegins(ev, m);
      } else if k < 3 {
        RewindingEnters(ev, m, k);
      } else if k < 6 {
        RewindingRewinds(ev, m, k);
      } else {
        RewindingEnds(ev, m, k);
      }
    }
    hide RewindingRun;
    StatesAreRun(ev, RewindingRun(ev, m), 11);
    assert RewindingRun(ev, m)[..11] == RewindingRun(ev, m);
  }

  lemma RewindingSkip(ev: Event, skip: Core)
    requires RewindingFacts(ev) && CanRead(ev, skip) && skip.sub != Error && skip.top.next == 18
    ensures SkipFields(ev, skip, 1).top.next == 21
  {
    hide NameEnd, ReadType, StackOk;
    FieldIsMeta(ev, 18, VALUE, 20, 21);
    SkipFieldIsMetaField(ev, skip);
    hide SkipField, CanRead;
    SkipFieldsOnce(ev, skip, 1);
    SkipFieldsOnce(ev, SkipField(ev, skip).0, 0);
  }

  lemma RewindingStart(ev: Event, f: Frame)
    requires RewindingFacts(ev) && TypeOffset(f) == 14
    ensures MembersStart(ev, f) == 18
  {
    hide ReadType, NameEnd;
  }

  /**
   * The event is opened. The decoder leaves its second struct with the cursor at 19, where a skip of the
   * same members, and the nested walk, end at 21; what lies between is shown once more as a field of the event.
   */
  lemma ConstantArrayEndsElsewhere(m: Core, skip: Core) returns (run: seq<Core>)
    requires CanRead(REWINDING, skip) && skip.sub != Error && skip.top.next == 18
    ensures Open(PlainName(), REWINDING.data) == Opened(EventHeader(6, 0, 0, 0, 0, 0), 0, REWINDING, 0, 0)
    ensures IsRun(REWINDING, run) && run[0] == Reset(REWINDING, m) && Last(run).sub == AfterLastItem
    ensures |run| == 11 && AtLastStructEnd(run[7]) && run[7].top.next == 19
    ensures TypeOffset(run[7].top) < REWINDING.metaEnd && MembersStart(REWINDING, run[7].top) == 18
    ensures SkipFields(REWINDING, skip, run[7].ft.format).top.next == 21
    ensures run[9].sub == ValueScalar && run[9].stack == [] && run[9].top.name == 19
  {
    BareOpens(REWINDING);
    RewindingFields();
    hide Open, IsRun, SkipFields, ReadType, NameEnd, StackOk;
    RewindingSkip(REWINDING, skip);
    RewindingIsRun(REWINDING, m);
    run := RewindingRun(REWINDING, m);
    RewindingStart(REWINDING, run[7].top);
  }

  // ---- both array flags ----

  /** An array of one struct, whose only field has both array flags; the array has one element, or none. */
  const RESERVED := Event(
    [6, 0, 0, 0, 0, 0, 0, 0, 6, 0, 1, 0, 0,
     0, 0xC1, 0x01,
     0, 0x62,
     1, 0, 0, 0],
    false, 12, 18, 0, 18)

  const RESERVED_EMPTY := Event(
    [6, 0, 0, 0, 0, 0, 0, 0, 6, 0, 1, 0, 0,
     0, 0xC1, 0x01,
     0, 0x62,
     0, 0],
    false, 12, 18, 0, 18)

  const BOTH := FieldType(0x62, 0, 0)

  /** What is read of them. */
  ghost predicate ReservedFacts(ev: Event, count: nat) {
    && Laid(ev, 18, if count == 0 then 20 else 22) && ev.U16(18) == count && (count != 0 ==> ev.U16(20) == 0)
    && FieldAt(ev, 13, FieldType(0x41, 1, 0), 14, 16)
    && FieldAt(ev, 16, BOTH, 17, 18)
  }

  lemma ReservedFields()
    ensures ReservedFacts(RESERVED, 1) && ReservedFacts(RESERVED_EMPTY, 0)
  {
    assert NameEnd(RESERVED, 13) == 13 && NameEnd(RESERVED, 16) == 16;
    assert NameEnd(RESERVED_EMPTY, 13) == 13 && NameEnd(RESERVED_EMPTY, 16) == 16;
  }

  function ReservedRun(ev: Event, m: Core): (run: seq<Core>)
    ensures |run| == 8 && run[0] == Reset(ev, m) && run[3].ft == BOTH && Last(run).sub == AfterLastItem
  {
    var structs := FieldType(0x41, 1, 0);
    var outer := Frame(16, 13, 0, 0, 1, 254);
    [Reset(ev, m),
     Core(20, outer, [], ArrayBegin, Success, 0, structs, 20, 0, 0),
     Core(20, outer, [], StructBegin, Success, 0, structs, 20, 0, 0),
     Core(22, Frame(18, 16, 0, 0, 0, 0), [outer], ArrayBegin, Success, 1, BOTH, 22, 0, 0),
     Core(22, Frame(18, 16, 0, 0, 0, 0), [outer], ArrayEnd, Success, 1, BOTH, 22, 0, 0),
     Core(22, outer.(next := 18), [], StructEnd, Success, 0, structs, 22, 0, 0),
     Core(22, outer.(next := 18, index := 1), [], ArrayEnd, Success, 0, structs, 22, 0, 0),
     Core(22, outer.(next := 18, index := 1), [], AfterLastItem, Success, 0, structs, 22, 0, 0)]
  }

  function ReservedEmptyRun(ev: Event, m: Core): (run: seq<Core>)
    ensures |run| == 4 && run[0] == Reset(ev, m)
  {
    var structs := FieldType(0x41, 1, 0);
    var outer := Frame(16, 13, 0, 0, 0, 254);
    [Reset(ev, m),
     Core(20, outer, [], ArrayBegin, Success, 0, structs, 20, 0, 0),
     Core(20, outer, [], ArrayEnd, Success, 0, structs, 20, 0, 0),
     Core(20, Frame(18, 16, 0, 0, 0, 254), [], Error, NotSupported, 0, structs, 20, 0, 0)]
  }

  lemma ReservedBegins(ev: Event, m: Core, k: nat)
    requires ReservedFacts(ev, 1) && k < 2
    ensures MovesAt(ev, ReservedRun(ev, m), k)
  {
    hide ReadType, NameEnd, StackOk, SubInv, SkipFields;
  }

  lemma ReservedEnters(ev: Event, m: Core)
    requires ReservedFacts(ev, 1)
    ensures MovesAt(ev, ReservedRun(ev, m), 2)
  {
    hide ReadType, NameEnd, StackOk, SubInv, SkipFields;
  }

  lemma ReservedEnds(ev: Event, m: Core, k: nat)
    requires ReservedFacts(ev, 1) && 3 <= k < 7
    ensures MovesAt(ev, ReservedRun(ev, m), k)
  {
    hide ReadType, NameEnd, StackOk, SubInv, SkipFields;
  }

  lemma ReservedIsRun(ev: Event, m: Core)
    requires ReservedFacts(ev, 1)
    ensures IsRun(ev, ReservedRun(ev, m))
  {
    ResetReads(ev, m);
    hide MovesAt, Inv, ReservedFacts;
    forall k | 0 <= k < 7 ensures MovesAt(ev, ReservedRun(ev, m), k) {
      if k < 2 {
        ReservedBegins(ev, m, k);
      } else if k == 2 {
        ReservedEnters(ev, m);
      } else {
        ReservedEnds(ev, m, k);
      }
    }
    hide ReservedRun;
    StatesAreRun(ev, ReservedRun(ev, m), 8);
    assert ReservedRun(ev, m)[..8] == ReservedRun(ev, m);
  }

  lemma ReservedEmptyMoves(ev: Event, m: Core, k: nat)
    requires ReservedFacts(ev, 0) && k < 3
    ensures MovesAt(ev, ReservedEmptyRun(ev, m), k)
  {
    hide ReadType, NameEnd, StackOk, SubInv;
    if k == 2 && Inv(ev, ReservedEmptyRun(ev, m)[k]) {
      SkipFieldsOnce(ev, ReservedEmptyRun(ev, m)[k], 1);
    }
    hide SkipFields;
  }

  lemma ReservedEmptyIsRun(ev: Event, m: Core)
    requires ReservedFacts(ev, 0)
    ensures IsRun(ev, ReservedEmptyRun(ev, m))
  {
    ResetReads(ev, m);
    hide MovesAt, Inv, ReservedFacts;
    forall k | 0 <= k < 3 ensures MovesAt(ev, ReservedEmptyRun(ev, m), k) {
      ReservedEmptyMoves(ev, m, k);
    }
    hide ReservedEmptyRun;
    StatesAreRun(ev, ReservedEmptyRun(ev, m), 4);
    assert ReservedEmptyRun(ev, m)[..4] == ReservedEmptyRun(ev, m);
  }

  lemma BothAreSet()
    ensures BothFlags(BOTH)
  {
  }

  /** The event with an element is opened and read to its end. */
  lemma ReservedIsRead(m: Core) returns (run: seq<Core>)
    ensures Open(PlainName(), RESERVED.data) == Opened(EventHeader(6, 0, 0, 0, 0, 0), 0, RESERVED, 0, 0)
    ensures IsRun(RESERVED, run) && run[0] == Reset(RESERVED, m)
    ensures |run| == 8 && BothFlags(run[3].ft) && Last(run).sub == AfterLastItem
  {
    BareOpens(RESERVED);
    ReservedFields();
    BothAreSet();
    hide Open, IsRun, ReservedFacts, ReservedRun, BothFlags;
    ReservedIsRun(RESERVED, m);
    run := ReservedRun(RESERVED, m);
  }

  /** The one without, whose metadata is the same, is opened and refused at the array's end. */
  lemma ReservedIsRefused(m: Core) returns (run: seq<Core>)
    ensures RESERVED.data[..RESERVED.metaEnd] == RESERVED_EMPTY.data[..RESERVED_EMPTY.metaEnd]
    ensures Open(PlainName(), RESERVED_EMPTY.data)
         == Opened(EventHeader(6, 0, 0, 0, 0, 0), 0, RESERVED_EMPTY, 0, 0)
    ensures IsRun(RESERVED_EMPTY, run) && run[0] == Reset(RESERVED_EMPTY, m)
    ensures Last(run).sub == Error && Last(run).err == NotSupported
  {
    SameMetadata();
    BareOpens(RESERVED_EMPTY);
    ReservedFields();
    hide Open, IsRun, ReservedFacts;
    ReservedEmptyIsRun(RESERVED_EMPTY, m);
    run := ReservedEmptyRun(RESERVED_EMPTY, m);
  }

  lemma SameMetadata()
    ensures RESERVED.data[..RESERVED.metaEnd] == RESERVED_EMPTY.data[..RESERVED_EMPTY.metaEnd]
  {
  }
}

/**
 * Enumeration of any bytes ends, even without the `move_next` limit: a measure with one digit for
 * each struct nesting level falls lexicographically at every move, although the elements of an
 * array of struct move the metadata cursor backwards.
 */
module EnumeratorTermination {
  import opened Bytes
  import opened FieldTypes
  import opened EnumeratorModel

  const LEVELS: nat := STRUCT_NEST_LIMIT + 1

  /** More than any position within one field: four phases for each of up to 65535 elements. */
  const FIELD_WEIGHT: nat := 4 * 65536

  /** Elements left in the current field's array, then the phase of the current element. */
  function Phase(f: Frame, phase: nat): int {
    4 * (f.count - f.index) + phase
  }

  /** Metadata left after the field's name starts, then the position within the field. */
  function Digit(ev: Event, f: Frame, phase: nat): int {
    (ev.metaEnd - f.name) * FIELD_WEIGHT + Phase(f, phase)
  }

  const STRUCT_OPEN: nat := 1

  function TopPhase(sub: SubState): nat {
    match sub
    case ArrayBegin => 3
    case ValueScalar => 2
    case ValueSimpleArrayElement => 2
    case ValueComplexArrayElement => 2
    case StructBegin => 2
    case ArrayEnd => 1
    case _ => 0
  }

  /** The digit of nesting level `i`: open structs below the top, the current item at the top. */
  function LevelDigit(ev: Event, m: Core, i: nat): int {
    if !CanMoveNext(m.sub) then 0
    else if i < |m.stack| then Digit(ev, m.stack[i], STRUCT_OPEN)
    else if i > |m.stack| then 0
    else if m.sub == BeforeFirstItem then (ev.metaEnd + 1) * FIELD_WEIGHT
    else Digit(ev, m.top, TopPhase(m.sub))
  }

  /** At level `i` the digit falls, and no lower level changes. */
  ghost predicate FallsAt(ev: Event, m: Core, m': Core, i: nat) {
    && i < LEVELS
    && 0 <= LevelDigit(ev, m', i) < LevelDigit(ev, m, i)
    && forall j :: 0 <= j < i ==> LevelDigit(ev, m', j) == LevelDigit(ev, m, j)
  }

  ghost predicate Falls(ev: Event, m: Core, m': Core) {
    exists i :: FallsAt(ev, m, m', i)
  }

  /** What a call of `next_property` can do to the frames: go on at this level, pop, or end. */
  ghost predicate Onward(ev: Event, m: Core, m': Core) {
    || !CanMoveNext(m'.sub)
    || (IsItem(m'.sub) && m'.stack == m.stack && m'.top.name == m.top.next && m.top.next < ev.metaEnd)
    || (m'.sub == StructEnd && |m.stack| != 0 && m'.stack == m.stack[..|m.stack| - 1]
        && m'.top == m.stack[|m.stack| - 1].(next := m'.top.next))
  }

  lemma NextPropertyOnward(ev: Event, m: Core)
    requires CanRead(ev, m)
    ensures Onward(ev, m, NextProperty(ev, m))
  {
    hide ReadType, StackOk, NameEnd;
  }

  lemma DigitFalls(ev: Event, f: Frame, phase: nat, f': Frame, phase': nat)
    requires ev.metaEnd >= f'.name && phase <= 3 && phase' <= 3
    requires 0 <= f'.count - f'.index <= 65535 && 0 <= f.count - f.index
    requires f'.name > f.name
    ensures 0 <= Digit(ev, f', phase') < Digit(ev, f, phase)
  {
    calc <= {
      (ev.metaEnd - f'.name) * FIELD_WEIGHT + FIELD_WEIGHT;
      (ev.metaEnd - f'.name + 1) * FIELD_WEIGHT;
      (ev.metaEnd - f.name) * FIELD_WEIGHT;
    }
  }

  lemma DigitPositive(ev: Event, f: Frame, phase: nat)
    requires f.name < ev.metaEnd && f.index <= f.count
    ensures Digit(ev, f, phase) > 0
  {
    assert (ev.metaEnd - f.name) * FIELD_WEIGHT >= FIELD_WEIGHT;
  }

  lemma ItemBounds(ev: Event, m: Core)
    requires Inv(ev, m) && IsItem(m.sub)
    ensures m.top.name < ev.metaEnd && m.top.index <= m.top.count <= 65535 && |m.stack| < LEVELS
  {
    hide ReadType, NameEnd, SubInv;
  }

  lemma OpenBounds(ev: Event, m: Core, i: nat)
    requires Inv(ev, m) && i < |m.stack|
    ensures m.stack[i].name < ev.metaEnd && m.stack[i].index <= m.stack[i].count
  {
    hide ReadType, NameEnd, SubInv;
  }

  /** Frames in use have positive digits. */
  lemma DigitsPositive(ev: Event, m: Core, i: nat)
    requires Inv(ev, m) && CanMoveNext(m.sub) && i <= |m.stack|
    ensures LevelDigit(ev, m, i) > 0
  {
    hide Inv, Digit;
    if i < |m.stack| {
      OpenBounds(ev, m, i);
      DigitPositive(ev, m.stack[i], STRUCT_OPEN);
    } else if m.sub != BeforeFirstItem {
      ItemBounds(ev, m);
      DigitPositive(ev, m.top, TopPhase(m.sub));
    }
  }

  lemma EndFalls(ev: Event, m: Core, m': Core)
    requires Inv(ev, m) && CanMoveNext(m.sub) && !CanMoveNext(m'.sub)
    ensures Falls(ev, m, m')
  {
    hide Inv;
    DigitsPositive(ev, m, 0);
    assert LevelDigit(ev, m', 0) == 0;
    assert FallsAt(ev, m, m', 0);
  }

  /** Same stack, same or later field, later phase: the top digit falls. */
  lemma TopFalls(ev: Event, m: Core, m': Core)
    requires Inv(ev, m) && IsItem(m.sub) && Inv(ev, m') && IsItem(m'.sub) && m'.stack == m.stack
    requires
      || m.top.name < m'.top.name
      || (m.top.name == m'.top.name && Phase(m'.top, TopPhase(m'.sub)) < Phase(m.top, TopPhase(m.sub)))
    ensures Falls(ev, m, m')
  {
    hide Inv;
    ItemBounds(ev, m);
    ItemBounds(ev, m');
    if m.top.name < m'.top.name {
      DigitFalls(ev, m.top, TopPhase(m.sub), m'.top, TopPhase(m'.sub));
    }
    assert FallsAt(ev, m, m', |m.stack|);
  }

  /** Popping a struct lowers the digit of the level it was opened at. */
  lemma PopFalls(ev: Event, m: Core, m': Core)
    requires Inv(ev, m) && IsItem(m.sub) && |m.stack| != 0 && Inv(ev, m')
    requires m'.sub == StructEnd && m'.stack == m.stack[..|m.stack| - 1]
    requires m'.top == m.stack[|m.stack| - 1].(next := m'.top.next)
    ensures Falls(ev, m, m')
  {
    hide Inv;
    ItemBounds(ev, m);
    ItemBounds(ev, m');
    assert FallsAt(ev, m, m', |m.stack| - 1);
  }

  /** Opening a struct lowers the digit of its own level, whatever follows below it. */
  lemma PushFalls(ev: Event, m: Core, m': Core)
    requires Inv(ev, m) && m.sub == StructBegin && |m.stack| < STRUCT_NEST_LIMIT && Inv(ev, m')
    requires Onward(ev, PushStruct(m), m')
    ensures Falls(ev, m, m')
  {
    hide Inv;
    ItemBounds(ev, m);
    if !CanMoveNext(m'.sub) {
      EndFalls(ev, m, m');
    } else {
      ItemBounds(ev, m');
      if m'.sub == StructEnd && m'.stack == PushStruct(m).stack[..|m.stack|] {
        assert m'.stack == m.stack;
      }
      assert FallsAt(ev, m, m', |m.stack|);
    }
  }

  /** From an item whose field is done, `next_property` lowers the digit of this level or of its parent. */
  lemma OnwardFalls(ev: Event, m: Core, n: Core, m': Core)
    requires Inv(ev, m) && IsItem(m.sub) && Inv(ev, m')
    requires n.stack == m.stack && Onward(ev, n, m') && m.top.name < n.top.next
    ensures Falls(ev, m, m')
  {
    hide Inv;
    if !CanMoveNext(m'.sub) {
      EndFalls(ev, m, m');
    } else if IsItem(m'.sub) && m'.stack == n.stack && m'.top.name == n.top.next {
      TopFalls(ev, m, m');
    } else {
      PopFalls(ev, m, m');
    }
  }

  lemma NextFromItem(ev: Event, m: Core, n: Core)
    requires Inv(ev, m) && IsItem(m.sub) && CanRead(ev, n) && n.top.remaining <= TOP_LEVEL_FIELD_LIMIT
    requires n.stack == m.stack && m.top.next <= n.top.next
    ensures Falls(ev, m, NextProperty(ev, n))
  {
    hide ReadType, NameEnd, SubInv, StackOk, NextProperty;
    NextPropertyOnward(ev, n);
    NextPropertyInv(ev, n);
    OnwardFalls(ev, m, n, NextProperty(ev, n));
  }

  lemma FirstFalls(ev: Event, m: Core)
    requires Inv(ev, m) && m.sub == BeforeFirstItem
    ensures Falls(ev, m, Step(ev, m))
  {
    hide ReadType, NameEnd, SubInv, NextProperty;
    var m' := NextProperty(ev, m);
    NextPropertyOnward(ev, m);
    NextPropertyInv(ev, m);
    if !CanMoveNext(m'.sub) {
      EndFalls(ev, m, m');
    } else {
      assert (ev.metaEnd - m'.top.name) * FIELD_WEIGHT + FIELD_WEIGHT <= ev.metaEnd * FIELD_WEIGHT;
      assert FallsAt(ev, m, m', 0);
    }
  }

  /** Into an array or over one of its elements: what becomes of the top frame and the substate. */
  lemma WithinArrayMoves(ev: Event, m: Core)
    requires m.sub == ValueSimpleArrayElement || m.sub == ValueComplexArrayElement || m.sub == ArrayBegin
    requires Inv(ev, m)
    ensures var m' := Step(ev, m);
            && m'.sub != BeforeFirstItem && m'.stack == m.stack && m'.top == m.top.(index := m'.top.index)
            && (m.sub == ArrayBegin ==> m'.top.index == m.top.index && (IsItem(m'.sub) ==> TopPhase(m'.sub) < 3))
            && (m.sub != ArrayBegin ==>
                  m'.top.index == m.top.index + 1 && (IsItem(m'.sub) ==> TopPhase(m'.sub) <= TopPhase(m.sub)))
  {
    hide ReadType, NameEnd, StackOk, OnField, StartValue, NextProperty, SkipFields;
    if m.sub == ArrayBegin {
      var m1 := m.(sub := ValueComplexArrayElement);
      StartKeepsFrames(ev, m1);
    } else {
      ElementMoves(ev, m);
      StartKeepsFrames(ev, NextElement(m));
    }
  }

  lemma WithinArrayFalls(ev: Event, m: Core)
    requires m.sub == ValueSimpleArrayElement || m.sub == ValueComplexArrayElement || m.sub == ArrayBegin
    requires Inv(ev, m) && Inv(ev, Step(ev, m))
    ensures Falls(ev, m, Step(ev, m))
  {
    hide Inv, Step, Falls;
    WithinArrayMoves(ev, m);
    if IsItem(Step(ev, m).sub) {
      TopFalls(ev, m, Step(ev, m));
    } else {
      EndFalls(ev, m, Step(ev, m));
    }
  }

  lemma StructStepFalls(ev: Event, m: Core)
    requires m.sub == StructBegin || m.sub == StructEnd
    requires Inv(ev, m) && Inv(ev, Step(ev, m))
    ensures Falls(ev, m, Step(ev, m))
  {
    hide ReadType, NameEnd, NextProperty, SkipFields;
    if m.sub == StructBegin {
      if |m.stack| >= STRUCT_NEST_LIMIT {
        EndFalls(ev, m, Step(ev, m));
      } else {
        NextPropertyOnward(ev, PushStruct(m));
        PushFalls(ev, m, Step(ev, m));
      }
    } else {
      var m1 := m.(top := m.top.(index := m.top.index + 1));
      if m1.top.count != m1.top.index || IsArray(m.ft.encoding) {
        TopFalls(ev, m, Step(ev, m));
      } else {
        NextFromItem(ev, m, m1);
      }
    }
  }

  /** Every move lowers the measure. */
  lemma StepFalls(ev: Event, m: Core)
    requires Inv(ev, m) && CanMoveNext(m.sub)
    ensures Falls(ev, m, Step(ev, m))
  {
    hide ReadType, NameEnd, StackOk, NextProperty, SkipFields, SubInv, StartValue;
    StepInv(ev, m);
    match m.sub
    case BeforeFirstItem => FirstFalls(ev, m);
    case ValueScalar => NextFromItem(ev, m, m.(pos := m.pos + m.rawSize));
    case ValueSimpleArrayElement => WithinArrayFalls(ev, m);
    case ValueComplexArrayElement => WithinArrayFalls(ev, m);
    case ArrayBegin => WithinArrayFalls(ev, m);
    case ArrayEnd =>
      if WithoutFlags(m.ft.encoding) == ENCODING_STRUCT && m.top.count == 0 {
        var m1 := SkipStructMetadata(ev, m);
        if m1.sub == Error {
          EndFalls(ev, m, m1);
        } else {
          SkipFieldsAdvance(ev, m, m.ft.format);
          NextFromItem(ev, m, m1);
        }
      } else {
        NextFromItem(ev, m, m);
      }
    case StructBegin => StructStepFalls(ev, m);
    case StructEnd => StructStepFalls(ev, m);
  }

  lemma {:induction false} SkipFieldsAdvance(ev: Event, m: Core, remaining: byte)
    requires CanRead(ev, m) && m.sub != Error && SkipFields(ev, m, remaining).sub != Error
    ensures m.top.next <= SkipFields(ev, m, remaining).top.next
    decreases ev.metaEnd - m.top.next
  {
    hide ReadType, NameEnd, StackOk, SkipField;
    if remaining != 0 && m.top.next != ev.metaEnd {
      var (m1, ft) := SkipField(ev, m);
      SkipFieldsAdvance(ev, m1, PendingAfter(remaining, ft));
    }
  }

  predicate Lower(a': int, a: int, rest: bool) {
    0 <= a' < a || (a' == a && rest)
  }

  /** The lexicographic order, level by level. */
  lemma FallsByLevel(ev: Event, m: Core, m': Core)
    requires Falls(ev, m, m')
    ensures Lower(LevelDigit(ev, m', 0), LevelDigit(ev, m, 0),
            Lower(LevelDigit(ev, m', 1), LevelDigit(ev, m, 1),
            Lower(LevelDigit(ev, m', 2), LevelDigit(ev, m, 2),
            Lower(LevelDigit(ev, m', 3), LevelDigit(ev, m, 3),
            Lower(LevelDigit(ev, m', 4), LevelDigit(ev, m, 4),
            Lower(LevelDigit(ev, m', 5), LevelDigit(ev, m, 5),
            Lower(LevelDigit(ev, m', 6), LevelDigit(ev, m, 6),
            Lower(LevelDigit(ev, m', 7), LevelDigit(ev, m, 7),
            Lower(LevelDigit(ev, m', 8), LevelDigit(ev, m, 8), false)))))))))
  {
    hide LevelDigit;
    var i :| FallsAt(ev, m, m', i);
  }

  /** The state in which enumeration stops when nothing limits the number of moves. */
  function RunToEnd(ev: Event, m: Core): (r: Core)
    requires Inv(ev, m)
    ensures Inv(ev, r) && !CanMoveNext(r.sub)
    decreases LevelDigit(ev, m, 0), LevelDigit(ev, m, 1), LevelDigit(ev, m, 2),
              LevelDigit(ev, m, 3), LevelDigit(ev, m, 4), LevelDigit(ev, m, 5),
              LevelDigit(ev, m, 6), LevelDigit(ev, m, 7), LevelDigit(ev, m, 8)
  {
    hide Inv, LevelDigit, Falls, Step;
    if !CanMoveNext(m.sub) then m
    else
      StepInv(ev, m);
      StepFalls(ev, m);
      FallsByLevel(ev, m, Step(ev, m));
      RunToEnd(ev, Step(ev, m))
  }
}

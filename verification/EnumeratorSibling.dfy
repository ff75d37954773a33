/**
 * `move_next_sibling` refines repeated `move_next`: its jump over the elements of a simple array,
 * at any depth inside the item it passes, changes neither where it arrives nor what is left to read.
 */
module EnumeratorSibling {
  import opened FieldTypes
  import opened EnumeratorModel
  import opened EnumeratorBudget

  /** `move_next` repeated until the item it started from, with its descendants, has been left. */
  function StepPast(ev: Event, m: Core, budget: nat, depth: int): (r: (Core, nat))
    requires Inv(ev, m) && CanMoveNext(m.sub)
    ensures Inv(ev, r.0) && r.1 <= budget
    decreases budget
  {
    hide Inv, Step;
    StepInv(ev, m);
    LimitInv(ev, m);
    var depth' := depth + DepthChange(m.sub);
    var (m', budget') := MoveNext(ev, m, budget);
    if !IsItem(m'.sub) || depth' <= 0 then (m', budget') else StepPast(ev, m', budget', depth')
  }

  /** The run was cut short by the move limit. */
  predicate Limited(m: Core) { m.sub == Error && m.err == ImplementationLimit }

  /** Equal as items; at the end of the event or after an error, equal in everything observable. */
  predicate Agree(m1: Core, m2: Core) {
    || m1 == m2
    || (!IsItem(m1.sub) && m1.sub == m2.sub && m1.err == m2.err && m1.pos == m2.pos
        && m1.stack == m2.stack && m1.top.next == m2.top.next)
  }

  /** `next_property` reads only the cursors, the stack and the fields left in the frame. */
  lemma NextPropertyReads(ev: Event, m1: Core, m2: Core)
    requires CanRead(ev, m1) && CanRead(ev, m2)
    requires m1.pos == m2.pos && m1.stack == m2.stack && m1.err == m2.err
    requires m1.top.next == m2.top.next && m1.top.remaining == m2.top.remaining
    ensures Agree(NextProperty(ev, m1), NextProperty(ev, m2))
  {
    hide ReadType, StackOk, NameEnd, ScanZero;
    if m1.top.remaining != 0 && m1.top.next != ev.metaEnd {
      NextFieldReads(ev, m1, m2);
    }
  }

  lemma NextFieldReads(ev: Event, m1: Core, m2: Core)
    requires CanRead(ev, m1) && CanRead(ev, m2)
    requires m1.pos == m2.pos && m1.stack == m2.stack && m1.err == m2.err
    requires m1.top.next == m2.top.next && m1.top.remaining == m2.top.remaining
    requires m1.top.remaining != 0 && m1.top.next != ev.metaEnd
    ensures Agree(NextField(ev, m1), NextField(ev, m2))
  {
    hide ReadType, StackOk, NameEnd, FieldRead;
    var top1 := m1.top.(remaining := m1.top.remaining - 1, index := 0, name := m1.top.next);
    var top2 := m2.top.(remaining := m2.top.remaining - 1, index := 0, name := m2.top.next);
    var (ft1, top1') := ReadField(ev, top1);
    var (ft2, top2') := ReadField(ev, top2);
    assert ft1 == ft2;
    if ft1.encoding != ENCODING_INVALID {
      assert top1'.(count := 0) == top2'.(count := 0);
      FieldReadReads(ev, m1.(ft := ft1, top := top1'), m2.(ft := ft2, top := top2'));
    }
  }

  /** Two states that differ at most in the sizes of the last item. */
  predicate SameBeforeItem(m1: Core, m2: Core) {
    m1.pos == m2.pos && m1.top == m2.top && m1.stack == m2.stack && m1.err == m2.err && m1.ft == m2.ft
  }

  lemma StartArrayReads(ev: Event, m1: Core, m2: Core)
    requires ev.Valid() && m1.pos <= |ev.data| && SameBeforeItem(m1, m2)
    ensures StartArray(ev, m1) == StartArray(ev, m2)
  {
    hide IsLeaf, WithoutFlags;
  }

  lemma StartValueReads(ev: Event, m1: Core, m2: Core)
    requires ev.Valid() && m1.pos <= |ev.data| && SameBeforeItem(m1, m2) && m1.sub == m2.sub
    ensures StartValue(ev, m1) == StartValue(ev, m2)
  {
    hide ScanZero, WithoutFlags;
  }

  lemma FieldReadReads(ev: Event, m1: Core, m2: Core)
    requires ev.Valid() && m1.pos <= |ev.data| && m1.top.next <= ev.metaEnd
    requires m1.pos == m2.pos && m1.stack == m2.stack && m1.err == m2.err && m1.ft == m2.ft
    requires m1.top.(count := 0) == m2.top.(count := 0)
    ensures Agree(FieldRead(ev, m1), FieldRead(ev, m2))
  {
    hide StartValue, StartArray;
    assert m1.top.(count := 1) == m2.top.(count := 1);
    var scalar1, scalar2 := m1.(top := m1.top.(count := 1)), m2.(top := m2.top.(count := 1));
    if !IsArray(m1.ft.encoding) {
      StartValueReads(ev, scalar1.(sub := ValueScalar), scalar2.(sub := ValueScalar));
    } else if IsVariableLengthArray(m1.ft.encoding) {
      if |ev.data| - m1.pos >= 2 {
        var count := ev.U16(m1.pos);
        StartArrayReads(ev, m1.(top := m1.top.(count := count), pos := m1.pos + 2),
                        m2.(top := m2.top.(count := count), pos := m2.pos + 2));
      }
    } else if ev.metaEnd - m1.top.next >= 2 {
      var count := ev.U16(m1.top.next);
      StartArrayReads(ev, m1.(top := m1.top.(count := count, next := m1.top.next + 2)),
                      m2.(top := m2.top.(count := count, next := m2.top.next + 2)));
    }
  }

  /** The end of the simple array that `m` stands at the start of, or in. */
  function ArrayEndOf(m: Core): Core
    requires m.sub == ArrayBegin || m.sub == ValueSimpleArrayElement
    requires m.top.index <= m.top.count
  {
    EndState(m.(pos := m.pos + (m.top.count - m.top.index) * m.elementSize, top := m.top.(index := m.top.count)),
        ArrayEnd)
  }

  /** Stepping over the elements left of a simple array takes one move each and ends at its `ArrayEnd`. */
  lemma {:induction false} ElementsPast(ev: Event, m: Core, budget: nat, depth: int)
    requires Inv(ev, m) && m.sub == ValueSimpleArrayElement && depth > 0
    ensures var e := ArrayEndOf(m);
            var n := m.top.count - m.top.index;
            && Inv(ev, e)
            && (budget < n ==> Limited(StepPast(ev, m, budget, depth).0))
            && (budget >= n ==> StepPast(ev, m, budget, depth) == StepPast(ev, e, budget - n, depth))
    decreases m.top.count - m.top.index
  {
    hide Inv, Step, StepPast;
    StepInv(ev, m);
    ElementStep(ev, m);
    StepPastOnce(ev, m, budget, depth);
    if m.top.count - m.top.index > 1 {
      ElementsPast(ev, Step(ev, m), if budget == 0 then 0 else budget - 1, depth);
    }
  }

  lemma ElementStep(ev: Event, m: Core)
    requires Inv(ev, m) && m.sub == ValueSimpleArrayElement
    ensures var m' := Step(ev, m);
            && m.top.index < m.top.count
            && (m.top.count - m.top.index == 1 ==> m' == ArrayEndOf(m))
            && (m.top.count - m.top.index > 1 ==>
                 m'.sub == ValueSimpleArrayElement && ArrayEndOf(m') == ArrayEndOf(m)
                 && m'.top.count == m.top.count && m'.top.index == m.top.index + 1)
  {
    hide ReadType, NameEnd, StackOk, OnField;
  }

  lemma StepPastOnce(ev: Event, m: Core, budget: nat, depth: int)
    requires Inv(ev, m) && CanMoveNext(m.sub) && Inv(ev, Step(ev, m))
    ensures budget == 0 ==> Limited(StepPast(ev, m, budget, depth).0)
    ensures var depth' := depth + DepthChange(m.sub);
            var m' := Step(ev, m);
            budget > 0 ==>
              StepPast(ev, m, budget, depth)
              == if !IsItem(m'.sub) || depth' <= 0 then (m', budget - 1) else StepPast(ev, m', budget - 1, depth')
  {
    hide Inv, Step;
  }

  /** Repeated stepping from the start of a simple array arrives where the jump does. */
  lemma SimpleArrayPast(ev: Event, m: Core, budget: nat, depth: int)
    requires Inv(ev, m) && AtSimpleArray(m) && depth >= 0
    ensures CanRead(ev, JumpArray(m)) && Inv(ev, NextProperty(ev, JumpArray(m)))
    ensures var moves := m.top.count + 2;
            var r := StepPast(ev, m, budget, depth);
            var m' := NextProperty(ev, JumpArray(m));
            if budget < moves then Limited(r.0)
            else if !IsItem(m'.sub) || depth <= 0 then Agree(m', r.0) && r.1 == budget - moves
            else r == StepPast(ev, m', budget - moves, depth)
  {
    hide Inv, CanRead, Step, StepPast, NextProperty;
    StepInv(ev, m);
    StepPastOnce(ev, m, budget, depth);
    SimpleArrayFacts(ev, m);
    var e := ArrayEndOf(m);
    if m.top.count > 0 {
      ElementsPast(ev, Step(ev, m), if budget == 0 then 0 else budget - 1, depth + 1);
    }
    LeaveSimpleArray(ev, m, e);
    if budget >= m.top.count + 1 {
      StepPastOnce(ev, e, budget - 1 - m.top.count, depth + 1);
    }
  }

  lemma SimpleArrayFacts(ev: Event, m: Core)
    requires Inv(ev, m) && AtSimpleArray(m)
    ensures m.top.index == 0
    ensures CanRead(ev, JumpArray(m)) && Inv(ev, NextProperty(ev, JumpArray(m)))
    ensures var first := Step(ev, m);
            if m.top.count == 0 then first == ArrayEndOf(m)
            else first.sub == ValueSimpleArrayElement && first.top == m.top && ArrayEndOf(first) == ArrayEndOf(m)
  {
    hide ReadType, NameEnd, StackOk, OnField, NextProperty;
    NextPropertyInv(ev, JumpArray(m));
  }

  lemma LeaveSimpleArray(ev: Event, m: Core, e: Core)
    requires Inv(ev, m) && AtSimpleArray(m) && m.top.index == 0 && e == ArrayEndOf(m) && Inv(ev, e)
    requires CanRead(ev, JumpArray(m))
    ensures Inv(ev, Step(ev, e))
    ensures Agree(NextProperty(ev, JumpArray(m)), Step(ev, e))
    ensures IsItem(Step(ev, e).sub) ==> NextProperty(ev, JumpArray(m)) == Step(ev, e)
  {
    hide ReadType, NameEnd, StackOk, OnField, NextProperty;
    StepInv(ev, e);
    assert Step(ev, e) == NextProperty(ev, e);
    NextPropertyReads(ev, JumpArray(m), e);
  }

  /**
   * Whatever the event's bytes and the two budgets, if neither way is cut short by its limit then
   * both arrive at the same item, cursors and stack; and the fast way is never cut short when the
   * slow way with no more budget is not.
   */
  lemma {:induction false} SiblingRefinesStepping(ev: Event, m: Core, fast: nat, slow: nat, depth: int)
    requires Inv(ev, m) && CanMoveNext(m.sub) && depth >= 0
    ensures var f := MoveNextSibling(ev, m, fast, depth);
            var s := StepPast(ev, m, slow, depth);
            && (!Limited(f.0) && !Limited(s.0) ==> Agree(f.0, s.0))
            && (fast >= slow && !Limited(s.0) ==> !Limited(f.0) && f.1 >= s.1)
    decreases fast
  {
    hide Inv, Step, NextProperty, StepPast, MoveNextSibling;
    StepInv(ev, m);
    StepPastOnce(ev, m, slow, depth);
    SiblingOnce(ev, m, fast, depth);
    if AtSimpleArray(m) && fast != 0 {
      SimpleArrayPast(ev, m, slow, depth);
      var m' := NextProperty(ev, JumpArray(m));
      if IsItem(m'.sub) && depth > 0 && slow >= m.top.count + 2 {
        SiblingRefinesStepping(ev, m', fast - 1, slow - m.top.count - 2, depth);
      }
    } else if fast != 0 && slow != 0 {
      var m' := Step(ev, m);
      var depth' := depth + DepthChange(m.sub);
      if IsItem(m'.sub) && depth' > 0 {
        SiblingRefinesStepping(ev, m', fast - 1, slow - 1, depth');
      }
    }
  }

  lemma SiblingOnce(ev: Event, m: Core, budget: nat, depth: int)
    requires Inv(ev, m) && CanMoveNext(m.sub) && Inv(ev, Step(ev, m))
    ensures budget == 0 ==> Limited(MoveNextSibling(ev, m, budget, depth).0)
    ensures AtSimpleArray(m) && budget != 0 ==>
              CanRead(ev, JumpArray(m)) && Inv(ev, NextProperty(ev, JumpArray(m)))
    ensures AtSimpleArray(m) && budget != 0 ==>
              var m' := NextProperty(ev, JumpArray(m));
              MoveNextSibling(ev, m, budget, depth)
              == if !IsItem(m'.sub) || depth <= 0 then (m', budget - 1) else MoveNextSibling(ev, m', budget - 1, depth)
    ensures var depth' := depth + DepthChange(m.sub);
            var m' := Step(ev, m);
            !AtSimpleArray(m) && budget > 0 ==>
              MoveNextSibling(ev, m, budget, depth)
              == if !IsItem(m'.sub) || depth' <= 0 then (m', budget - 1)
                 else MoveNextSibling(ev, m', budget - 1, depth')
  {
    hide ReadType, NameEnd, StackOk, OnField, Step, NextProperty;
    if AtSimpleArray(m) {
      assert CanRead(ev, JumpArray(m));
      NextPropertyInv(ev, JumpArray(m));
    }
  }
}

/**
 * `move_next` and `move_next_sibling` with their budget, as functions. A call made with no budget
 * left fails with `ImplementationLimit`; every other call costs one.
 */
module EnumeratorBudget {
  import opened EnumeratorModel

  function MoveNext(ev: Event, m: Core, budget: nat): (r: (Core, nat))
    requires Inv(ev, m) && CanMoveNext(m.sub)
  {
    if budget == 0 then (Fail(m, ImplementationLimit), 0) else (Step(ev, m), budget - 1)
  }

  lemma LimitInv(ev: Event, m: Core)
    requires Inv(ev, m)
    ensures Inv(ev, Fail(m, ImplementationLimit))
  {
    FailInv(ev, m, ImplementationLimit);
  }

  /** Change of nesting depth caused by leaving an item, as the sibling loop counts it. */
  function DepthChange(sub: SubState): int {
    match sub
    case ArrayEnd => -1
    case StructEnd => -1
    case StructBegin => 1
    case ArrayBegin => 1
    case _ => 0
  }

  /** At the start of an array whose elements all have one fixed size. */
  predicate AtSimpleArray(m: Core) { m.sub == ArrayBegin && m.elementSize != 0 }

  /** Past all elements of a simple array, without visiting them. */
  function JumpArray(m: Core): Core {
    m.(pos := m.pos + m.top.count * m.elementSize)
  }

  lemma JumpInv(ev: Event, m: Core)
    requires Inv(ev, m) && AtSimpleArray(m)
    ensures CanRead(ev, JumpArray(m)) && Inv(ev, NextProperty(ev, JumpArray(m)))
  {
    hide ReadType, StackOk, NameEnd, NextProperty;
    NextPropertyInv(ev, JumpArray(m));
  }

  /** The loop of `move_next_sibling`, entered with the given depth. */
  function MoveNextSibling(ev: Event, m: Core, budget: nat, depth: int): (r: (Core, nat))
    requires Inv(ev, m) && CanMoveNext(m.sub)
    ensures Inv(ev, r.0) && r.1 <= budget
    decreases budget
  {
    hide Inv, CanRead, Step, NextProperty;
    StepInv(ev, m);
    LimitInv(ev, m);
    if AtSimpleArray(m) && budget != 0 then
      JumpInv(ev, m);
      var m' := NextProperty(ev, JumpArray(m));
      if !IsItem(m'.sub) || depth <= 0 then (m', budget - 1)
      else MoveNextSibling(ev, m', budget - 1, depth)
    else
      var depth' := depth + DepthChange(m.sub);
      var (m', budget') := MoveNext(ev, m, budget);
      if !IsItem(m'.sub) || depth' <= 0 then (m', budget')
      else MoveNextSibling(ev, m', budget', depth')
  }
}

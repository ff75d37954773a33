/**
 * The states of every run that reaches `AfterLastItem`, on any bytes, spell a forest: array and
 * struct begin and end states match, and an `ArrayBegin` of count n is followed by exactly n
 * values or structs before its `ArrayEnd`.
 */
module EnumeratorNesting {
  import opened Bytes
  import opened FieldTypes
  import opened EnumeratorModel
  import opened EnumeratorRuns

  /** What a field is called. */
  datatype Label = Label(name: bytes, tag: u16)

  datatype Symbol =
    | Value(key: Label, value: bytes)
    | ArrayOpen(key: Label, count: nat)
    | ArrayClose
    | StructOpen(key: Label)
    | StructClose

  /** An event's fields as a tree; an array's elements bear its name. */
  datatype Node =
    | Leaf(key: Label, value: bytes)
    | StructNode(key: Label, fields: seq<Node>)
    | ArrayNode(key: Label, elements: seq<Node>)

  /** Arrays hold values and structs of their own name, never arrays. */
  ghost predicate WellFormed(n: Node) {
    match n
    case Leaf(_, _) => true
    case StructNode(_, fields) => forall f :: f in fields ==> WellFormed(f)
    case ArrayNode(key, elements) => forall e :: e in elements ==> !e.ArrayNode? && e.key == key && WellFormed(e)
  }

  function Spell(n: Node): seq<Symbol> {
    match n
    case Leaf(key, value) => [Value(key, value)]
    case StructNode(key, fields) => [StructOpen(key)] + SpellAll(fields) + [StructClose]
    case ArrayNode(key, elements) => [ArrayOpen(key, |elements|)] + SpellAll(elements) + [ArrayClose]
  }

  function SpellAll(ns: seq<Node>): seq<Symbol> {
    if ns == [] then [] else SpellAll(ns[..|ns| - 1]) + Spell(ns[|ns| - 1])
  }

  /** Name and tag of the current field. */
  function LabelOf(ev: Event, m: Core): Label {
    Label(Slice(ev.data, m.top.name, m.top.nameLen), m.ft.tag)
  }

  function ValueOf(ev: Event, m: Core): bytes { Slice(ev.data, m.cookedPos, m.cookedSize) }

  function SymbolOf(ev: Event, m: Core): seq<Symbol> {
    match StateOf(m.sub)
    case StateValue => [Value(LabelOf(ev, m), ValueOf(ev, m))]
    case StateArrayBegin => [ArrayOpen(LabelOf(ev, m), m.top.count)]
    case StateArrayEnd => [ArrayClose]
    case StateStructBegin => [StructOpen(LabelOf(ev, m))]
    case StateStructEnd => [StructClose]
    case _ => []
  }

  /** The word a run spells. */
  function Word(ev: Event, run: seq<Core>): seq<Symbol> {
    if run == [] then [] else Word(ev, run[..|run| - 1]) + SymbolOf(ev, run[|run| - 1])
  }

  // ---- forests under construction ----

  datatype Bracket = InStruct(key: Label) | InArray(key: Label, count: nat, done: nat)

  /** The brackets open at some point of a run, innermost last. */
  datatype Brackets = Outside | Within(outer: Brackets, bracket: Bracket)

  /** A forest under construction: complete nodes at each level, and the bracket each level is in. */
  datatype Partial = Roots(nodes: seq<Node>) | Inside(outer: Partial, bracket: Bracket, nodes: seq<Node>)

  function Opening(b: Bracket): seq<Symbol> {
    match b
    case InStruct(key) => [StructOpen(key)]
    case InArray(key, count, _) => [ArrayOpen(key, count)]
  }

  function SpellPartial(p: Partial): seq<Symbol> {
    match p
    case Roots(nodes) => SpellAll(nodes)
    case Inside(outer, b, nodes) => SpellPartial(outer) + Opening(b) + SpellAll(nodes)
  }

  ghost predicate PartialOk(p: Partial) {
    && (forall n :: n in p.nodes ==> WellFormed(n))
    && (p.Inside? ==> PartialOk(p.outer) && KeyFits(BracketsOf(p.outer), p.bracket.key))
    && (p.Inside? && p.bracket.InArray? ==>
          && p.bracket.done == |p.nodes| <= p.bracket.count
          && forall n :: n in p.nodes ==> !n.ArrayNode? && n.key == p.bracket.key)
  }

  function BracketsOf(p: Partial): Brackets {
    match p
    case Roots(_) => Outside
    case Inside(outer, b, _) => Within(BracketsOf(outer), b)
  }

  /** The brackets after one more node has been completed. */
  function Counted(bs: Brackets): Brackets {
    if bs.Within? && bs.bracket.InArray? then
      bs.(bracket := bs.bracket.(done := bs.bracket.done + 1))
    else bs
  }

  /** Whether a node may be completed here. */
  predicate Room(bs: Brackets) {
    bs.Within? && bs.bracket.InArray? ==> bs.bracket.done < bs.bracket.count
  }

  /** Whether something may be called that here: in an array, only what the array is called. */
  predicate KeyFits(bs: Brackets, key: Label) {
    bs.Within? && bs.bracket.InArray? ==> key == bs.bracket.key
  }

  /** Whether an array may be opened here. */
  predicate NotInArray(bs: Brackets) {
    bs.Within? ==> bs.bracket.InStruct?
  }

  /** How the brackets change from item to item: what each symbol requires and does. */
  ghost predicate Follows(bs: Brackets, s: Symbol, bs': Brackets) {
    match s
    case Value(key, _) => Room(bs) && KeyFits(bs, key) && bs' == Counted(bs)
    case ArrayOpen(key, count) => NotInArray(bs) && bs' == Within(bs, InArray(key, count, 0))
    case StructOpen(key) => Room(bs) && KeyFits(bs, key) && bs' == Within(bs, InStruct(key))
    case ArrayClose =>
      && bs.Within? && bs.bracket.InArray? && bs.bracket.done == bs.bracket.count
      && NotInArray(bs.outer) && bs' == bs.outer
    case StructClose =>
      bs.Within? && bs.bracket.InStruct? && Room(bs.outer) && bs' == Counted(bs.outer)
  }

  lemma AddNode(p: Partial, n: Node) returns (p': Partial)
    requires PartialOk(p) && WellFormed(n) && Room(BracketsOf(p))
    requires n.ArrayNode? ==> NotInArray(BracketsOf(p))
    requires KeyFits(BracketsOf(p), n.key)
    ensures PartialOk(p') && BracketsOf(p') == Counted(BracketsOf(p))
    ensures SpellPartial(p') == SpellPartial(p) + Spell(n)
  {
    hide WellFormed, Spell;
    p' := p.(nodes := p.nodes + [n]);
    if p.Inside? && p.bracket.InArray? {
      p' := p'.(bracket := p.bracket.(done := p.bracket.done + 1));
    }
    assert p'.nodes[..|p.nodes|] == p.nodes;
  }

  /** Closing a level makes its nodes one node of the level outside. */
  lemma CloseLevel(p: Partial) returns (p': Partial)
    requires PartialOk(p) && p.Inside?
    requires p.bracket.InArray? ==> p.bracket.done == p.bracket.count && NotInArray(BracketsOf(p.outer))
    requires p.bracket.InStruct? ==> Room(BracketsOf(p.outer))
    ensures PartialOk(p') && BracketsOf(p') == Counted(BracketsOf(p.outer))
    ensures SpellPartial(p') == SpellPartial(p) + (if p.bracket.InArray? then [ArrayClose] else [StructClose])
  {
    var n := if p.bracket.InArray? then ArrayNode(p.bracket.key, p.nodes) else StructNode(p.bracket.key, p.nodes);
    p' := AddNode(p.outer, n);
  }

  /** Any symbol that follows the brackets extends the forest. */
  lemma Extend(p: Partial, s: Symbol, bs': Brackets) returns (p': Partial)
    requires PartialOk(p) && Follows(BracketsOf(p), s, bs')
    ensures PartialOk(p') && BracketsOf(p') == bs' && SpellPartial(p') == SpellPartial(p) + [s]
  {
    match s
    case Value(key, value) => p' := AddNode(p, Leaf(key, value));
    case ArrayOpen(key, count) => p' := Inside(p, InArray(key, count, 0), []);
    case StructOpen(key) => p' := Inside(p, InStruct(key), []);
    case ArrayClose => p' := CloseLevel(p);
    case StructClose => p' := CloseLevel(p);
  }

  // ---- the decoder's brackets ----

  /** `bs` and, if `isArray`, the array that an element stands in. */
  function InElement(bs: Brackets, isArray: bool, key: Label, count: nat, done: nat): Brackets {
    if isArray then Within(bs, InArray(key, count, done)) else bs
  }

  /** Name and tag of a frame's current field. */
  function FrameLabel(ev: Event, f: Frame): Label
    requires ev.Valid() && TypeOffset(f) < ev.metaEnd
  {
    Label(Slice(ev.data, f.name, f.nameLen), TypeOf(ev, f).tag)
  }

  /** The brackets held open by the structs on the stack. */
  function StackBrackets(ev: Event, stack: seq<Frame>): Brackets
    requires ev.Valid() && StackOk(ev, stack)
  {
    if stack == [] then Outside
    else
      var f := stack[|stack| - 1];
      var outer := StackBrackets(ev, stack[..|stack| - 1]);
      Within(InElement(outer, IsArray(TypeOf(ev, f).encoding), FrameLabel(ev, f), f.count, f.index),
             InStruct(FrameLabel(ev, f)))
  }

  /** The brackets open once the current item's symbol has been read. */
  function OpenBrackets(ev: Event, m: Core): Brackets
    requires Inv(ev, m)
  {
    var bs := StackBrackets(ev, m.stack);
    var key := LabelOf(ev, m);
    match m.sub
    case ValueSimpleArrayElement => Within(bs, InArray(key, m.top.count, m.top.index + 1))
    case ValueComplexArrayElement => Within(bs, InArray(key, m.top.count, m.top.index + 1))
    case ArrayBegin => Within(bs, InArray(key, m.top.count, 0))
    case StructBegin =>
      Within(InElement(bs, IsArray(m.ft.encoding), key, m.top.count, m.top.index), InStruct(key))
    case StructEnd => InElement(bs, IsArray(m.ft.encoding), key, m.top.count, m.top.index + 1)
    case _ => bs
  }

  lemma StackNotInArray(ev: Event, stack: seq<Frame>)
    requires ev.Valid() && StackOk(ev, stack)
    ensures NotInArray(StackBrackets(ev, stack))
  {
  }

  /** A move to an item reads its symbol; a move to the end finds no bracket open. */
  ghost predicate MoveFollows(ev: Event, bs: Brackets, m': Core)
    requires Inv(ev, m')
  {
    && (IsItem(m'.sub) ==> Follows(bs, SymbolOf(ev, m')[0], OpenBrackets(ev, m')))
    && (m'.sub == AfterLastItem ==> bs == Outside && m'.stack == [])
    && m'.sub != BeforeFirstItem
  }

  /** `next_property` goes on from the brackets of the stack. */
  lemma NextPropertyFollows(ev: Event, n: Core)
    requires CanRead(ev, n) && n.top.remaining <= TOP_LEVEL_FIELD_LIMIT
    ensures Inv(ev, NextProperty(ev, n))
    ensures MoveFollows(ev, StackBrackets(ev, n.stack), NextProperty(ev, n))
  {
    hide ReadType, NameEnd, StackOk, OnField, NextField, FieldRead;
    var m' := NextProperty(ev, n);
    NextPropertyInv(ev, n);
    StackNotInArray(ev, n.stack);
    if n.top.remaining != 0 && n.top.next != ev.metaEnd {
      NextFieldStart(ev, n);
    } else if |n.stack| != 0 {
      ParentBrackets(ev, n);
    }
  }

  lemma NextFieldStart(ev: Event, n: Core)
    requires CanRead(ev, n) && n.top.remaining != 0 && n.top.next != ev.metaEnd
    ensures var m' := NextField(ev, n);
            m'.sub != Error ==>
              && m'.stack == n.stack && m'.top.index == 0
              && (m'.sub == ValueScalar || m'.sub == ArrayBegin || (m'.sub == StructBegin && !IsArray(m'.ft.encoding)))
  {
    hide ReadType, NameEnd, StackOk, OnField, ScanZero;
  }

  lemma ParentBrackets(ev: Event, n: Core)
    requires CanRead(ev, n) && |n.stack| != 0 && Inv(ev, PopStruct(ev, n))
    ensures MoveFollows(ev, StackBrackets(ev, n.stack), PopStruct(ev, n))
  {
    hide ReadType, NameEnd;
    var f := n.stack[|n.stack| - 1];
    assert OpenFrame(ev, f);
    assert StackOk(ev, n.stack[..|n.stack| - 1]);
    StackNotInArray(ev, n.stack[..|n.stack| - 1]);
  }

  /** The same field, with its frames. */
  predicate SameField(m: Core, m': Core) {
    && m'.stack == m.stack && m'.ft == m.ft
    && m'.top.name == m.top.name && m'.top.nameLen == m.top.nameLen && m'.top.count == m.top.count
  }

  lemma ElementShape(ev: Event, m: Core)
    requires m.sub == ValueSimpleArrayElement || m.sub == ValueComplexArrayElement
    requires Inv(ev, m)
    ensures var m' := Step(ev, m);
            m'.sub != Error ==>
              && SameField(m, m') && m'.top.index == m.top.index + 1 <= m.top.count
              && m'.sub == if m'.top.index == m.top.count then ArrayEnd else m.sub
  {
    ElementMoves(ev, m);
    StartKeepsFrames(ev, NextElement(m));
    hide CanRead, OnField, TypeOf, NextProperty, Step, StartValue;
  }

  lemma SameLabel(ev: Event, m: Core, m': Core)
    requires SameField(m, m')
    ensures LabelOf(ev, m') == LabelOf(ev, m)
  {
  }

  lemma ElementFollows(ev: Event, m: Core)
    requires m.sub == ValueSimpleArrayElement || m.sub == ValueComplexArrayElement
    requires Inv(ev, m) && Inv(ev, Step(ev, m))
    ensures MoveFollows(ev, OpenBrackets(ev, m), Step(ev, m))
  {
    hide Inv, Step, LabelOf, StackBrackets, OpenBrackets, Follows, StackOk;
    var m' := Step(ev, m);
    ElementShape(ev, m);
    InStack(ev, m);
    OpenAtElement(ev, m);
    if m'.sub != Error {
      SameLabel(ev, m, m');
      OpenAtElement(ev, m');
      NextInArray(StackBrackets(ev, m.stack), LabelOf(ev, m), ValueOf(ev, m'), m.top.count, m.top.index + 1);
    }
  }

  /** After an element of an array comes the next one, or the array's end. */
  lemma NextInArray(bs: Brackets, key: Label, value: bytes, count: nat, done: nat)
    requires NotInArray(bs) && done <= count
    ensures var here := Within(bs, InArray(key, count, done));
            && (done < count ==> Follows(here, Value(key, value), Within(bs, InArray(key, count, done + 1))))
            && (done == count ==> Follows(here, ArrayClose, bs))
  {
  }

  lemma InStack(ev: Event, m: Core)
    requires Inv(ev, m)
    ensures ev.Valid() && StackOk(ev, m.stack) && NotInArray(StackBrackets(ev, m.stack))
  {
    StackNotInArray(ev, m.stack);
  }

  /** The brackets open in the array of a value, and at its end. */
  lemma OpenAtElement(ev: Event, m: Core)
    requires Inv(ev, m)
    ensures var bs := StackBrackets(ev, m.stack);
            && (m.sub == ValueSimpleArrayElement || m.sub == ValueComplexArrayElement ==>
                  OpenBrackets(ev, m) == Within(bs, InArray(LabelOf(ev, m), m.top.count, m.top.index + 1)))
            && (m.sub == ArrayEnd ==> OpenBrackets(ev, m) == bs)
  {
    hide StackBrackets, LabelOf, SubInv, OnField, StackOk;
  }

  lemma ArrayBeginShape(ev: Event, m: Core)
    requires m.sub == ArrayBegin && Inv(ev, m)
    ensures IsArray(m.ft.encoding) && m.top.index == 0
    ensures var m' := Step(ev, m);
            m'.sub != Error ==>
              && SameField(m, m') && m'.top.index == 0
              && if m.top.count == 0 then m'.sub == ArrayEnd
                 else m'.sub == ValueSimpleArrayElement || m'.sub == ValueComplexArrayElement || m'.sub == StructBegin
  {
    StartKeepsFrames(ev, m.(sub := ValueComplexArrayElement));
    hide CanRead, OnField, TypeOf, NextProperty, StartValue;
  }

  lemma ArrayBeginFollows(ev: Event, m: Core)
    requires m.sub == ArrayBegin
    requires Inv(ev, m) && Inv(ev, Step(ev, m))
    ensures MoveFollows(ev, OpenBrackets(ev, m), Step(ev, m))
  {
    hide Inv, Step, LabelOf, StackBrackets, StackOk;
    var m' := Step(ev, m);
    ArrayBeginShape(ev, m);
    InStack(ev, m);
    if m'.sub != Error {
      SameLabel(ev, m, m');
    }
  }

  lemma StructBeginFollows(ev: Event, m: Core)
    requires Inv(ev, m) && m.sub == StructBegin && Inv(ev, Step(ev, m))
    ensures MoveFollows(ev, OpenBrackets(ev, m), Step(ev, m))
  {
    hide ReadType, NameEnd, NextProperty;
    StackNotInArray(ev, m.stack);
    if |m.stack| < STRUCT_NEST_LIMIT {
      var n := PushStruct(m);
      NextPropertyFollows(ev, n);
      assert n.stack[..|n.stack| - 1] == m.stack;
    }
  }

  lemma StructEndFollows(ev: Event, m: Core)
    requires Inv(ev, m) && m.sub == StructEnd && Inv(ev, Step(ev, m))
    ensures MoveFollows(ev, OpenBrackets(ev, m), Step(ev, m))
  {
    hide ReadType, NameEnd, NextProperty, StackBrackets, StackOk, OnField;
    StackNotInArray(ev, m.stack);
    var m1 := m.(top := m.top.(index := m.top.index + 1));
    if m1.top.count == m1.top.index && !IsArray(m.ft.encoding) {
      NextPropertyFollows(ev, m1);
    }
  }

  lemma StepFollows(ev: Event, m: Core)
    requires Inv(ev, m) && CanMoveNext(m.sub)
    ensures Inv(ev, Step(ev, m))
    ensures MoveFollows(ev, OpenBrackets(ev, m), Step(ev, m))
  {
    hide ReadType, NameEnd, StackOk, OnField, NextProperty, SkipFields, StackBrackets, MoveFollows, StartValue;
    StepInv(ev, m);
    match m.sub
    case BeforeFirstItem => NextPropertyFollows(ev, m);
    case ValueScalar => NextPropertyFollows(ev, m.(pos := m.pos + m.rawSize));
    case ValueSimpleArrayElement => ElementFollows(ev, m);
    case ValueComplexArrayElement => ElementFollows(ev, m);
    case ArrayBegin => ArrayBeginFollows(ev, m);
    case ArrayEnd =>
      if WithoutFlags(m.ft.encoding) == ENCODING_STRUCT && m.top.count == 0 {
        var m1 := SkipStructMetadata(ev, m);
        if m1.sub == Error {
          ErrorFollows(ev, OpenBrackets(ev, m), m1);
        } else {
          NextPropertyFollows(ev, m1);
        }
      } else {
        NextPropertyFollows(ev, m);
      }
    case StructBegin => StructBeginFollows(ev, m);
    case StructEnd => StructEndFollows(ev, m);
  }

  lemma ErrorFollows(ev: Event, bs: Brackets, m: Core)
    requires Inv(ev, m) && m.sub == Error
    ensures MoveFollows(ev, bs, m)
  {
  }

  /** At every point of every run the word read so far is a forest under construction. */
  lemma {:induction false} RunSpellsPartial(ev: Event, run: seq<Core>) returns (p: Partial)
    requires IsRun(ev, run) && Last(run).sub != Error
    ensures PartialOk(p) && BracketsOf(p) == OpenBrackets(ev, Last(run)) && SpellPartial(p) == Word(ev, run)
    decreases |run|
  {
    hide Inv, Step, Follows, WellFormed, OpenBrackets, PartialOk, SpellPartial, BracketsOf, SymbolOf, MoveFollows;
    if |run| == 1 {
      BeforeOutside(ev, run[0]);
      NothingSpelled();
      NoSymbol(ev, run[0]);
      assert Word(ev, run[..0]) == [];
      p := Roots([]);
    } else {
      var before := run[..|run| - 1];
      p := RunSpellsPartial(ev, before);
      StepFollows(ev, Last(before));
      if IsItem(Last(run).sub) {
        ItemFollows(ev, OpenBrackets(ev, Last(before)), Last(run));
        p := Extend(p, SymbolOf(ev, Last(run))[0], OpenBrackets(ev, Last(run)));
      } else {
        EndOutside(ev, OpenBrackets(ev, Last(before)), Last(run));
        NoSymbol(ev, Last(run));
      }
    }
  }

  lemma NothingSpelled()
    ensures PartialOk(Roots([])) && BracketsOf(Roots([])) == Outside && SpellPartial(Roots([])) == []
  {
  }

  lemma NoSymbol(ev: Event, m: Core)
    requires !IsItem(m.sub)
    ensures SymbolOf(ev, m) == []
  {
  }

  lemma ItemFollows(ev: Event, bs: Brackets, m: Core)
    requires Inv(ev, m) && MoveFollows(ev, bs, m) && IsItem(m.sub)
    ensures |SymbolOf(ev, m)| == 1 && SymbolOf(ev, m) == [SymbolOf(ev, m)[0]]
    ensures Follows(bs, SymbolOf(ev, m)[0], OpenBrackets(ev, m))
  {
    hide Inv, Follows, OpenBrackets;
  }

  lemma BeforeOutside(ev: Event, m: Core)
    requires Inv(ev, m) && m.sub == BeforeFirstItem
    ensures OpenBrackets(ev, m) == Outside
  {
  }

  lemma EndOutside(ev: Event, bs: Brackets, m: Core)
    requires Inv(ev, m) && MoveFollows(ev, bs, m)
    requires !IsItem(m.sub) && m.sub != Error
    ensures m.sub == AfterLastItem && OpenBrackets(ev, m) == Outside == bs
  {
    hide ReadType, StackOk, OnField, SubInv;
  }

  /** Every run that reaches the end of the event spells a well-formed forest. */
  lemma CompleteRunIsForest(ev: Event, run: seq<Core>) returns (forest: seq<Node>)
    requires IsRun(ev, run) && Last(run).sub == AfterLastItem
    ensures Word(ev, run) == SpellAll(forest)
    ensures forall n :: n in forest ==> WellFormed(n)
  {
    hide Inv, Step, WellFormed;
    var before := run[..|run| - 1];
    var p := RunSpellsPartial(ev, run);
    StepFollows(ev, Last(before));
    EndOutside(ev, OpenBrackets(ev, Last(before)), Last(run));
    forest := p.nodes;
  }
}

/**
 * Writing an event as JSON: one loop over the decoder and the comma automaton, which passes simple
 * arrays at once. What it writes is the text of the tree of the items it passes.
 */
module JsonOutput {
  import opened Bytes
  import opened FieldTypes
  import opened EnumeratorModel
  import opened EnumeratorBudget
  import opened EnumeratorNesting
  import opened EnumeratorRuns
  import opened EnumeratorSibling
  import opened JsonWriter
  import Enumerator

  /**
   * A text under construction: what is complete at the outermost level, which stands in the brackets
   * `base` of the event, and what is complete in each bracket opened since.
   */
  datatype Draft =
    | Base(base: Brackets, nodes: seq<Node>)
    | Nested(outer: Draft, bracket: Bracket, nodes: seq<Node>)

  /** How the outermost level is written: after a comma or not, its members named or not. */
  datatype Style = Style(lead: bool, named: bool)

  function DraftBrackets(d: Draft): Brackets {
    match d
    case Base(base, _) => base
    case Nested(outer, b, _) => Within(DraftBrackets(outer), b)
  }

  /** Brackets opened since the start. */
  function Levels(d: Draft): nat {
    match d
    case Base(_, _) => 0
    case Nested(outer, _, _) => 1 + Levels(outer)
  }

  predicate NeedsComma(d: Draft, style: Style) {
    d.nodes != [] || (d.Base? && style.lead)
  }

  predicate NeedsName(d: Draft, style: Style) {
    match d
    case Base(_, _) => style.named
    case Nested(_, b, _) => b.InStruct?
  }

  function Opener(b: Bracket): Token { if b.InStruct? then OpenBrace else OpenBracket }

  /** What is in front of the next value: a comma if one is due, a name if it is a member. */
  function Lead(d: Draft, style: Style, key: Label): tokens {
    Emit(NeedsComma(d, style), Comma) + Emit(NeedsName(d, style), Name(key))
  }

  function Render(d: Draft, style: Style): tokens {
    match d
    case Base(_, nodes) => Led(style.lead, nodes, style.named)
    case Nested(outer, b, nodes) =>
      Render(outer, style) + Lead(outer, style, b.key) + [Opener(b)] + List(nodes, b.InStruct?)
  }

  function CountIn(d: Draft): Draft {
    match d
    case Base(base, _) => d.(base := Counted(base))
    case Nested(_, b, _) => if b.InArray? then d.(bracket := b.(done := b.done + 1)) else d
  }

  /** One more value complete at the innermost level. */
  function Complete(d: Draft, n: Node): Draft {
    CountIn(d).(nodes := d.nodes + [n])
  }

  lemma Grown(x: tokens, list: tokens, lead: tokens, body: tokens)
    ensures x + (list + lead + body) == x + list + lead + body
  {
  }

  lemma RenderComplete(d: Draft, n: Node, style: Style)
    ensures Render(Complete(d, n), style) == Render(d, style) + Lead(d, style, n.key) + Body(n)
    ensures NeedsComma(Complete(d, n), style)
    ensures DraftBrackets(Complete(d, n)) == Counted(DraftBrackets(d)) && Levels(Complete(d, n)) == Levels(d)
  {
    hide Body, List, Led, Emit;
    match d
    case Base(_, nodes) => LedGrows(style.lead, nodes, n, style.named);
    case Nested(outer, b, nodes) =>
      ListGrows(nodes, n, b.InStruct?);
      Grown(Render(outer, style) + Lead(outer, style, b.key) + [Opener(b)], List(nodes, b.InStruct?),
            Lead(d, style, n.key), Body(n));
  }

  lemma LedGrows(lead: bool, ns: seq<Node>, n: Node, named: bool)
    ensures Led(lead, ns + [n], named)
         == Led(lead, ns, named) + (Emit(ns != [] || lead, Comma) + Emit(named, Name(n.key))) + Body(n)
  {
    hide Body, List;
    ListGrows(ns, n, named);
  }

  lemma ListGrows(ns: seq<Node>, n: Node, named: bool)
    ensures List([], named) == []
    ensures List(ns + [n], named) == List(ns, named) + (Emit(ns != [], Comma) + Emit(named, Name(n.key))) + Body(n)
  {
    hide Body, Emit;
    assert (ns + [n])[..|ns|] == ns;
  }

  function Closed(d: Draft): Draft
    requires d.Nested?
  {
    Complete(d.outer, LevelNode(d))
  }

  /** The innermost level as a node. */
  function LevelNode(d: Draft): Node
    requires d.Nested?
  {
    if d.bracket.InStruct? then StructNode(d.bracket.key, d.nodes) else ArrayNode(d.bracket.key, d.nodes)
  }

  lemma RenderClosed(d: Draft, style: Style)
    requires d.Nested?
    ensures Render(Closed(d), style)
         == Render(d, style) + [if d.bracket.InStruct? then CloseBrace else CloseBracket]
    ensures NeedsComma(Closed(d), style)
    ensures DraftBrackets(Closed(d)) == Counted(DraftBrackets(d.outer)) && Levels(Closed(d)) == Levels(d) - 1
  {
    hide List;
    RenderComplete(d.outer, LevelNode(d), style);
  }

  function Opened(d: Draft, b: Bracket): Draft { Nested(d, b, []) }

  lemma RenderOpened(d: Draft, b: Bracket, style: Style)
    ensures Render(Opened(d, b), style) == Render(d, style) + Lead(d, style, b.key) + [Opener(b)]
    ensures !NeedsComma(Opened(d, b), style)
  {
    assert List([], b.InStruct?) == [];
  }

  // ---- the decoder's items in the draft ----

  /** The item at `m` may come next in the draft. */
  ghost predicate Fits(ev: Event, m: Core, d: Draft)
    requires Inv(ev, m)
  {
    if m.sub == BeforeFirstItem then d == Base(Outside, []) else MoveFollows(ev, DraftBrackets(d), m)
  }

  /** Whether the item stands in an array: `is_element`. */
  predicate IsElement(m: Core) {
    (StateOf(m.sub) == StateValue || m.sub == StructBegin || m.sub == StructEnd) && IsArray(m.ft.encoding)
  }

  /** Exactly the items that do not stand in an array are members, and named. */
  lemma ElementsAreUnnamed(ev: Event, m: Core, d: Draft)
    requires Inv(ev, m) && MoveFollows(ev, DraftBrackets(d), m)
    requires StateOf(m.sub) == StateValue || m.sub == ArrayBegin || m.sub == StructBegin
    ensures IsElement(m) <==> !NotInArray(DraftBrackets(d))
  {
    hide StackOk, OnField, ReadType, WithoutFlags, StackBrackets;
    StackNotInArray(ev, m.stack);
  }

  /** The draft once the item at `m` has been written. */
  function WithItem(ev: Event, d: Draft, m: Core): Draft {
    match StateOf(m.sub)
    case StateValue => Complete(d, Leaf(LabelOf(ev, m), ValueOf(ev, m)))
    case StateArrayBegin => Opened(d, InArray(LabelOf(ev, m), m.top.count, 0))
    case StateStructBegin => Opened(d, InStruct(LabelOf(ev, m)))
    case StateArrayEnd => if d.Nested? then Closed(d) else d
    case StateStructEnd => if d.Nested? then Closed(d) else d
    case _ => d
  }

  lemma WithItemBrackets(ev: Event, m: Core, d: Draft, style: Style)
    requires Inv(ev, m) && IsItem(m.sub) && MoveFollows(ev, DraftBrackets(d), m)
    requires m.sub == ArrayEnd || m.sub == StructEnd ==> d.Nested?
    ensures DraftBrackets(WithItem(ev, d, m)) == OpenBrackets(ev, m)
    ensures Levels(WithItem(ev, d, m)) == Levels(d) + DepthChange(m.sub)
  {
    hide CanRead, OnField, ReadType, WithoutFlags, Inv, OpenBrackets, Render, List;
    RenderComplete(d, Leaf(LabelOf(ev, m), ValueOf(ev, m)), style);
    if d.Nested? {
      RenderClosed(d, style);
    }
  }

  lemma MoveStillFits(ev: Event, m: Core, d: Draft, budget: nat)
    requires Inv(ev, m) && CanMoveNext(m.sub) && DraftBrackets(d) == OpenBrackets(ev, m)
    ensures Inv(ev, MoveNext(ev, m, budget).0)
    ensures MoveFollows(ev, DraftBrackets(d), MoveNext(ev, m, budget).0)
  {
    hide Inv, Step, OpenBrackets;
    StepFollows(ev, m);
    LimitInv(ev, m);
    ErrorFollows(ev, DraftBrackets(d), Fail(m, ImplementationLimit));
  }

  lemma JumpBrackets(ev: Event, m: Core, d: Draft)
    requires Inv(ev, m) && m.sub == ArrayBegin && MoveFollows(ev, DraftBrackets(d), m)
    ensures DraftBrackets(d) == StackBrackets(ev, m.stack) && NotInArray(DraftBrackets(d))
  {
    hide ReadType, NameEnd, StackOk, OnField, StackBrackets;
    StackNotInArray(ev, m.stack);
  }

  /** Where the jump over a simple array leads, unless the limit on moves stops it. */
  lemma JumpsTo(ev: Event, m: Core, budget: nat)
    requires Inv(ev, m) && AtSimpleArray(m)
    ensures CanRead(ev, JumpArray(m)) && JumpArray(m).top.remaining <= TOP_LEVEL_FIELD_LIMIT
    ensures MoveNextSibling(ev, m, budget, 0).0
         == if budget == 0 then Fail(m, ImplementationLimit) else NextProperty(ev, JumpArray(m))
  {
    hide Step, NextProperty, ReadType, StackOk, OnField;
    NextPropertyInv(ev, JumpArray(m));
  }

  lemma JumpStillFits(ev: Event, m: Core, d: Draft, budget: nat)
    requires Inv(ev, m) && AtSimpleArray(m) && MoveFollows(ev, DraftBrackets(d), m)
    ensures DraftBrackets(Complete(d, SimpleNode(ev, m))) == DraftBrackets(d)
    ensures var m' := MoveNextSibling(ev, m, budget, 0).0;
            Inv(ev, m') && MoveFollows(ev, DraftBrackets(d), m')
  {
    hide Inv, CanRead, NextProperty, StackBrackets, List, Body, Render, Step, MoveNextSibling, Complete, MoveFollows,
        Leaves;
    JumpsTo(ev, m, budget);
    JumpBrackets(ev, m, d);
    RenderComplete(d, SimpleNode(ev, m), Style(false, false));
    if budget != 0 {
      NextPropertyFollows(ev, JumpArray(m));
    } else {
      LimitInv(ev, m);
      ErrorFollows(ev, DraftBrackets(d), Fail(m, ImplementationLimit));
    }
  }

  // ---- the draft and the items passed ----

  /** The items that a draft stands for, in the order in which they are passed. */
  function SpellDraft(d: Draft): seq<Symbol> {
    match d
    case Base(_, nodes) => SpellAll(nodes)
    case Nested(outer, b, nodes) => SpellDraft(outer) + Opening(b) + SpellAll(nodes)
  }

  /** An array's draft counts the values complete in it. */
  predicate DraftOk(d: Draft) {
    d.Nested? ==> DraftOk(d.outer) && (d.bracket.InArray? ==> d.bracket.done == |d.nodes|)
  }

  lemma SpellComplete(d: Draft, n: Node)
    ensures SpellDraft(Complete(d, n)) == SpellDraft(d) + Spell(n)
    ensures DraftOk(d) ==> DraftOk(Complete(d, n))
  {
    hide Spell;
    assert (d.nodes + [n])[..|d.nodes|] == d.nodes;
  }

  lemma SpellOpened(d: Draft, b: Bracket)
    requires b.InArray? ==> b.done == 0
    ensures SpellDraft(Opened(d, b)) == SpellDraft(d) + Opening(b)
    ensures DraftOk(d) ==> DraftOk(Opened(d, b))
  {
    assert SpellAll([]) == [];
  }

  lemma SpellClosed(d: Draft)
    requires d.Nested? && DraftOk(d) && (d.bracket.InArray? ==> d.bracket.done == d.bracket.count)
    ensures SpellDraft(Closed(d)) == SpellDraft(d) + [if d.bracket.InStruct? then StructClose else ArrayClose]
    ensures DraftOk(Closed(d))
  {
    hide SpellAll;
    SpellComplete(d.outer, LevelNode(d));
  }

  lemma SpellWithItem(ev: Event, m: Core, d: Draft)
    requires Inv(ev, m) && IsItem(m.sub) && MoveFollows(ev, DraftBrackets(d), m) && DraftOk(d)
    requires m.sub == ArrayEnd || m.sub == StructEnd ==> d.Nested?
    ensures SpellDraft(WithItem(ev, d, m)) == SpellDraft(d) + SymbolOf(ev, m) && DraftOk(WithItem(ev, d, m))
  {
    hide Inv, OpenBrackets, SpellDraft, Complete, Closed, DraftOk;
    if StateOf(m.sub) == StateValue {
      SpellComplete(d, Leaf(LabelOf(ev, m), ValueOf(ev, m)));
    } else if m.sub == ArrayBegin {
      SpellOpened(d, InArray(LabelOf(ev, m), m.top.count, 0));
    } else if m.sub == StructBegin {
      SpellOpened(d, InStruct(LabelOf(ev, m)));
    } else {
      SpellClosed(d);
    }
  }

  /** The path passed so far spells the draft; its last state is where the decoder stands. */
  ghost predicate Spells(ev: Event, path: seq<Core>, d: Draft) {
    IsPath(ev, path) && Word(ev, path[..|path| - 1]) == SpellDraft(d) && DraftOk(d)
  }

  /** One more step on a path. */
  lemma StepOn(ev: Event, path: seq<Core>) returns (path': seq<Core>)
    requires IsPath(ev, path) && CanMoveNext(Last(path).sub)
    ensures Inv(ev, Last(path)) && IsPath(ev, path') && Last(path') == Step(ev, Last(path)) && Inv(ev, Last(path'))
    ensures |path| > 0 && |path'| > 0 && path'[0] == path[0] && path'[..|path'| - 1] == path
    ensures Word(ev, path) == Word(ev, path[..|path| - 1]) + SymbolOf(ev, Last(path))
  {
    hide Inv, Step;
    PathGrows(ev, path);
    path' := path + [Step(ev, Last(path))];
  }

  lemma PlainPath(ev: Event, path: seq<Core>, m: Core, d: Draft) returns (path': seq<Core>)
    requires Spells(ev, path, d) && Last(path) == m && CanMoveNext(m.sub)
    requires IsItem(m.sub) ==> MoveFollows(ev, DraftBrackets(d), m)
    requires m.sub == ArrayEnd || m.sub == StructEnd ==> d.Nested?
    ensures Spells(ev, path', WithItem(ev, d, m)) && path'[0] == path[0] && Last(path') == Step(ev, m)
  {
    hide Inv, Step, Word, MoveFollows, SpellDraft, WithItem, IsPath;
    path' := StepOn(ev, path);
    if IsItem(m.sub) {
      SpellWithItem(ev, m, d);
    } else {
      NothingWritten(ev, m, d);
    }
  }

  lemma NothingWritten(ev: Event, m: Core, d: Draft)
    requires m.sub == BeforeFirstItem
    ensures WithItem(ev, d, m) == d && SymbolOf(ev, m) == []
  {
  }

  /** A simple array as a node. */
  function SimpleNode(ev: Event, m: Core): Node {
    ArrayNode(LabelOf(ev, m), Leaves(LabelOf(ev, m), ValueOf(ev, m), m.elementSize, m.top.count))
  }

  /** The values from `pos` on as leaves. */
  function LeavesFrom(data: bytes, key: Label, pos: nat, size: nat, n: nat): (r: seq<Node>)
    ensures |r| == n
    decreases n
  {
    if n == 0 then [] else [Leaf(key, Slice(data, pos, size))] + LeavesFrom(data, key, pos + size, size, n - 1)
  }

  lemma {:induction false} LeavesFromAt(data: bytes, key: Label, pos: nat, size: nat, n: nat, i: nat)
    requires i < n
    ensures LeavesFrom(data, key, pos, size, n)[i] == Leaf(key, Slice(data, pos + i * size, size))
    decreases n
  {
    if i > 0 {
      LeavesFromAt(data, key, pos + size, size, n - 1, i - 1);
      assert pos + size + (i - 1) * size == pos + i * size;
    }
  }

  lemma {:induction false} LeavesAt(key: Label, value: bytes, size: nat, n: nat, i: nat)
    requires i < n
    ensures Leaves(key, value, size, n)[i] == Leaf(key, Slice(value, i * size, size))
  {
    if i < n - 1 {
      LeavesAt(key, value, size, n - 1, i);
    }
  }

  lemma SliceOfSlice(data: bytes, pos: nat, length: nat, at: nat, size: nat)
    requires pos + length <= |data| && at + size <= length
    ensures Slice(Slice(data, pos, length), at, size) == Slice(data, pos + at, size)
  {
    var whole := data[pos..pos + length];
    var part, same := whole[at..at + size], data[pos + at..pos + at + size];
    assert forall k :: 0 <= k < size ==> part[k] == same[k];
  }

  lemma {:induction false} PartFits(i: nat, n: nat, size: nat)
    requires i < n
    ensures i * size + size <= n * size
    decreases n
  {
    assert n * size == (n - 1) * size + size;
    if i < n - 1 {
      PartFits(i, n - 1, size);
    }
  }

  lemma LeavesAreThose(data: bytes, key: Label, pos: nat, size: nat, n: nat)
    requires pos + n * size <= |data|
    ensures LeavesFrom(data, key, pos, size, n) == Leaves(key, Slice(data, pos, n * size), size, n)
  {
    hide LeavesFrom, Leaves, Slice;
    forall i: nat | i < n
      ensures LeavesFrom(data, key, pos, size, n)[i] == Leaves(key, Slice(data, pos, n * size), size, n)[i]
    {
      LeavesFromAt(data, key, pos, size, n, i);
      LeavesAt(key, Slice(data, pos, n * size), size, n, i);
      PartFits(i, n, size);
      SliceOfSlice(data, pos, n * size, i * size, size);
    }
  }

  /** Stepping over what is left of a simple array passes one value for each element left. */
  lemma {:induction false} ElementsPath(ev: Event, path: seq<Core>, m: Core) returns (path': seq<Core>)
    requires IsPath(ev, path) && Last(path) == m && m.sub == ValueSimpleArrayElement
    ensures m.top.index <= m.top.count && |path| > 0 && |path'| > 0
    ensures IsPath(ev, path') && path'[0] == path[0] && Last(path') == ArrayEndOf(m) && Inv(ev, Last(path'))
    ensures Word(ev, path'[..|path'| - 1])
         == Word(ev, path[..|path| - 1])
            + SpellAll(LeavesFrom(ev.data, LabelOf(ev, m), m.pos, m.elementSize, m.top.count - m.top.index))
    decreases m.top.count - m.top.index
  {
    hide Inv, Step, Word, IsPath, SpellAll, LeavesFrom, LabelOf, ValueOf;
    var path1 := StepOn(ev, path);
    ElementStep(ev, m);
    ElementIs(ev, m);
    var n := m.top.count - m.top.index;
    LeavesSpell(ev.data, LabelOf(ev, m), m.pos, m.elementSize, n);
    if n == 1 {
      NoLeaves(ev.data, LabelOf(ev, m), m.pos + m.elementSize, m.elementSize);
      path' := path1;
    } else {
      path' := ElementsPath(ev, path1, Step(ev, m));
    }
  }

  /** An element of a simple array, and where the next one is. */
  lemma ElementIs(ev: Event, m: Core)
    requires Inv(ev, m) && m.sub == ValueSimpleArrayElement
    ensures SymbolOf(ev, m) == [Value(LabelOf(ev, m), Slice(ev.data, m.pos, m.elementSize))]
    ensures var m' := Step(ev, m);
            LabelOf(ev, m') == LabelOf(ev, m) && m'.pos == m.pos + m.elementSize && m'.elementSize == m.elementSize
  {
    ElementMoves(ev, m);
    hide CanRead, OnField, TypeOf, Step, NextProperty;
  }

  lemma {:induction false} SpellFirst(n: Node, ns: seq<Node>)
    ensures SpellAll([n] + ns) == Spell(n) + SpellAll(ns)
  {
    hide Spell;
    if ns == [] {
      assert [n] + ns == [n] && [n][..0] == [];
    } else {
      var last := |ns| - 1;
      assert ([n] + ns)[..|[n] + ns| - 1] == [n] + ns[..last];
      SpellFirst(n, ns[..last]);
    }
  }

  lemma LeavesSpell(data: bytes, key: Label, pos: nat, size: nat, n: nat)
    requires n > 0
    ensures SpellAll(LeavesFrom(data, key, pos, size, n))
         == [Value(key, Slice(data, pos, size))] + SpellAll(LeavesFrom(data, key, pos + size, size, n - 1))
  {
    hide SpellAll;
    SpellFirst(Leaf(key, Slice(data, pos, size)), LeavesFrom(data, key, pos + size, size, n - 1));
  }

  lemma JumpPath(ev: Event, path: seq<Core>, m: Core, d: Draft) returns (path': seq<Core>)
    requires Spells(ev, path, d) && Last(path) == m && AtSimpleArray(m)
    ensures CanRead(ev, JumpArray(m))
    ensures var m' := NextProperty(ev, JumpArray(m));
            && Spells(ev, path', Complete(d, SimpleNode(ev, m))) && path'[0] == path[0]
            && Agree(m', Last(path')) && (IsItem(Last(path').sub) ==> m' == Last(path'))
  {
    hide Inv, CanRead, Step, Word, SpellDraft, Complete, NextProperty, SpellAll, IsPath, LeavesFrom, LabelOf, ValueOf,
      Leaves;
    path' := StepOn(ev, path);
    SimpleArrayFacts(ev, m);
    FirstElement(ev, m);
    if m.top.count == 0 {
      NoLeaves(ev.data, LabelOf(ev, m), m.pos, m.elementSize);
    } else {
      path' := ElementsPath(ev, path', Step(ev, m));
    }
    SimpleNodeSpells(ev, m);
    LeaveSimpleArray(ev, m, ArrayEndOf(m));
    path' := StepOn(ev, path');
    SpellComplete(d, SimpleNode(ev, m));
  }

  lemma FirstElement(ev: Event, m: Core)
    requires Inv(ev, m) && AtSimpleArray(m)
    ensures SymbolOf(ev, m) == [ArrayOpen(LabelOf(ev, m), m.top.count)] && SymbolOf(ev, ArrayEndOf(m)) == [ArrayClose]
    ensures var m' := Step(ev, m);
            m'.sub == ValueSimpleArrayElement ==>
              LabelOf(ev, m') == LabelOf(ev, m) && m'.pos == m.pos && m'.elementSize == m.elementSize
  {
    hide CanRead, OnField, TypeOf, NextProperty, StartValue;
  }

  lemma SimpleNodeSpells(ev: Event, m: Core)
    requires Inv(ev, m) && AtSimpleArray(m)
    ensures Spell(SimpleNode(ev, m))
         == [ArrayOpen(LabelOf(ev, m), m.top.count)]
            + SpellAll(LeavesFrom(ev.data, LabelOf(ev, m), m.pos, m.elementSize, m.top.count)) + [ArrayClose]
  {
    SimpleValue(ev, m);
    hide Inv, SpellAll, LeavesFrom, Leaves, LabelOf;
    LeavesAreThose(ev.data, LabelOf(ev, m), m.pos, m.elementSize, m.top.count);
  }

  lemma SimpleValue(ev: Event, m: Core)
    requires Inv(ev, m) && AtSimpleArray(m)
    ensures m.pos + m.top.count * m.elementSize <= |ev.data|
    ensures ValueOf(ev, m) == Slice(ev.data, m.pos, m.top.count * m.elementSize)
  {
    hide CanRead, TypeOf;
  }

  /** The path leads from the first state to the current one, or at the end to one that agrees with it. */
  ghost predicate Follow(ev: Event, path: seq<Core>, d: Draft, first: Core, m: Core) {
    && Spells(ev, path, d) && path[0] == first
    && Agree(m, Last(path)) && (CanMoveNext(m.sub) ==> m == Last(path))
  }

  lemma FollowStart(ev: Event, m: Core, d: Draft)
    requires Inv(ev, m) && d.Base? && d.nodes == []
    ensures Follow(ev, [m], d, m, m)
  {
    hide Inv;
    assert [m][..0] == [];
  }

  lemma NoLeaves(data: bytes, key: Label, pos: nat, size: nat)
    ensures SpellAll(LeavesFrom(data, key, pos, size, 0)) == []
  {
  }

  // ---- the loop ----

  /** The writer stands where the draft says. */
  ghost predicate Shows(json: JsonWriter, d: Draft, style: Style)
    reads json
  {
    json.Text() == Render(d, style) && json.comma == NeedsComma(d, style)
  }

  /** The name of the next value, if it has one, and then a bracket or a scalar. */
  method WriteName(json: JsonWriter, named: bool, key: Label)
    modifies json
    ensures json.comma == (old(json.comma) && !named)
    ensures json.Text() == old(json.Text()) + if named then Emit(old(json.comma), Comma) + [Name(key)] else []
  {
    if named {
      json.WritePropertyName(key);
    }
  }

  /** Writes a value, or the start of an array or a struct. */
  method WriteStart(json: JsonWriter, state: EnumeratorState, named: bool, key: Label, value: bytes, ghost ev: Event,
      ghost m: Core, ghost d: Draft, ghost style: Style)
    requires state == StateOf(m.sub) && (state == StateValue || state == StateArrayBegin || state == StateStructBegin)
    requires Shows(json, d, style) && named == NeedsName(d, style)
    requires key == LabelOf(ev, m) && value == ValueOf(ev, m)
    modifies json
    ensures Shows(json, WithItem(ev, d, m), style)
  {
    hide Render, Body, List, LabelOf, ValueOf;
    if state == StateValue {
      RenderComplete(d, Leaf(key, value), style);
      LeafBody(key, value);
      WriteName(json, named, key);
      json.WriteValue(Scalar(value));
    } else if state == StateArrayBegin {
      RenderOpened(d, InArray(key, m.top.count, 0), style);
      WriteName(json, named, key);
      json.WriteBegin(OpenBracket);
    } else {
      RenderOpened(d, InStruct(key), style);
      WriteName(json, named, key);
      json.WriteBegin(OpenBrace);
    }
  }

  lemma LeafBody(key: Label, value: bytes)
    ensures Body(Leaf(key, value)) == [Scalar(value)]
  {
  }

  lemma WholeCount(count: nat, base: byte)
    requires IsFixed(base)
    ensures count * FixedSize(base) / FixedSize(base) == count
  {
    var size := FixedSize(base);
    assert size == 1 || size == 2 || size == 4 || size == 8 || size == 16;
  }

  /** The text of a whole simple array is that of the array of its values. */
  lemma SimpleBody(base: byte, key: Label, value: bytes, count: nat)
    requires IsFixed(base) && |value| == count * FixedSize(base)
    ensures SimpleText(base, value) == Body(ArrayNode(key, Leaves(key, value, FixedSize(base), count)))
  {
    hide FixedSize, List, Leaves, Scalars;
    WholeCount(count, base);
    ScalarsAreLeaves(key, value, FixedSize(base), count);
  }

  /** Writes a whole simple array. */
  method WriteJump(json: JsonWriter, base: byte, key: Label, value: bytes, ghost count: nat, named: bool,
      ghost d: Draft, ghost style: Style)
    requires Shows(json, d, style) && named == NeedsName(d, style)
    requires IsFixed(base) && |value| == count * FixedSize(base)
    modifies json
    ensures Shows(json, Complete(d, ArrayNode(key, Leaves(key, value, FixedSize(base), count))), style)
  {
    hide Render, Body, List, FixedSize, Leaves, SimpleText;
    RenderComplete(d, ArrayNode(key, Leaves(key, value, FixedSize(base), count)), style);
    SimpleBody(base, key, value, count);
    WriteName(json, named, key);
    json.WriteSimpleArray(base, value);
  }

  /** The bytes of a simple array are those of its elements. */
  lemma SimpleArraySize(ev: Event, m: Core)
    requires Inv(ev, m) && AtSimpleArray(m)
    ensures var base := WithoutFlags(m.ft.encoding);
            && IsFixed(base) && m.elementSize == FixedSize(base)
            && |ValueOf(ev, m)| == m.top.count * FixedSize(base)
  {
    hide CanRead, TypeOf;
  }

  /** An item that starts something: one that `write_json_item` may be asked to write. */
  predicate Starts(sub: SubState) { StateOf(sub) == StateValue || sub == ArrayBegin || sub == StructBegin }

  /**
   * What the loop keeps: where it stands in the draft, how many brackets are open, and which items
   * are named. `whole` tells a walk from before the first item from one that starts at an item.
   */
  ghost predicate Writing(ev: Event, m: Core, d: Draft, style: Style, depth: int, wantName: bool, whole: bool)
    requires Inv(ev, m)
  {
    && Fits(ev, m, d)
    && (whole ==> style.named && DraftBrackets(BaseOf(d)) == Outside)
    && (whole ==> depth == Levels(d) + (if m.sub == BeforeFirstItem then 0 else 1))
    && (m.sub == BeforeFirstItem ==> whole)
    && (!whole ==> depth == Levels(d) && BaseOf(d).nodes == [] && (d.Base? ==> Starts(m.sub)))
    && (!whole && d.Base? ==> style.named == (wantName && !IsElement(m)))
    && ((whole && IsItem(m.sub)) || d.Nested? ==> wantName)
  }

  function BaseOf(d: Draft): Draft {
    if d.Base? then d else BaseOf(d.outer)
  }

  /** Named as the draft needs it. */
  lemma NamesAreRight(ev: Event, m: Core, d: Draft, style: Style, depth: int, wantName: bool, whole: bool)
    requires Inv(ev, m) && Starts(m.sub) && Writing(ev, m, d, style, depth, wantName, whole)
    ensures NeedsName(d, style) == (wantName && !IsElement(m))
  {
    hide Inv;
    ElementsAreUnnamed(ev, m, d);
  }

  /** Only what was opened is closed. */
  lemma EndsAreNested(ev: Event, m: Core, d: Draft, style: Style, depth: int, wantName: bool, whole: bool)
    requires Inv(ev, m) && (m.sub == ArrayEnd || m.sub == StructEnd)
    requires Writing(ev, m, d, style, depth, wantName, whole)
    ensures d.Nested? && d.bracket.InStruct? == (m.sub == StructEnd)
  {
    hide Inv;
  }

  /** One turn of the loop that moves with `move_next`. */
  lemma TurnKeeps(ev: Event, m: Core, d: Draft, style: Style, depth: int, wantName: bool, whole: bool, budget: nat)
    requires Inv(ev, m) && CanMoveNext(m.sub) && !AtSimpleArray(m)
    requires Writing(ev, m, d, style, depth, wantName, whole)
    ensures var m' := MoveNext(ev, m, budget).0;
            var d' := WithItem(ev, d, m);
            var depth' := depth + (if m.sub == BeforeFirstItem then 1 else DepthChange(m.sub));
            && Inv(ev, m')
            && MoveFollows(ev, DraftBrackets(d'), m')
            && (IsItem(m'.sub) && depth' > 0 ==> Writing(ev, m', d', style, depth', true, whole))
            && (!whole ==> depth' == Levels(d') && (d'.Base? ==> |d'.nodes| == 1))
            && (whole ==> depth' == Levels(d') + 1)
  {
    hide Inv, OpenBrackets, Step, MoveFollows, Render, List;
    if m.sub == BeforeFirstItem {
      BeforeOutside(ev, m);
    } else {
      if m.sub == ArrayEnd || m.sub == StructEnd {
        EndsAreNested(ev, m, d, style, depth, wantName, whole);
      }
      WithItemBrackets(ev, m, d, style);
      BaseStays(ev, d, m);
    }
    MoveStillFits(ev, m, WithItem(ev, d, m), budget);
  }

  lemma BaseComplete(d: Draft, n: Node)
    ensures var d' := Complete(d, n);
            if d.Base? then d' == Base(Counted(d.base), d.nodes + [n])
            else d'.Nested? && BaseOf(d') == BaseOf(d)
  {
  }

  lemma BaseStays(ev: Event, d: Draft, m: Core)
    ensures DraftBrackets(BaseOf(d)) == Outside ==> DraftBrackets(BaseOf(WithItem(ev, d, m))) == Outside
    ensures BaseOf(d).nodes == [] && IsItem(m.sub) && (d.Base? ==> Starts(m.sub)) ==>
              var d' := WithItem(ev, d, m);
              if d'.Base? then |d'.nodes| == 1 else BaseOf(d').nodes == []
  {
    hide Complete;
    BaseComplete(d, Leaf(LabelOf(ev, m), ValueOf(ev, m)));
    if d.Nested? {
      BaseComplete(d.outer, LevelNode(d));
    }
  }

  /** The loop of `move_next_sibling`, one turn at a time. */
  lemma TurnMoves(ev: Event, m: Core, budget: nat, depth: int)
    requires Inv(ev, m) && CanMoveNext(m.sub) && !AtSimpleArray(m)
    ensures var (m', budget') := MoveNext(ev, m, budget);
            var depth' := depth + DepthChange(m.sub);
            && Inv(ev, m')
            && (IsItem(m'.sub) ==> budget' < budget)
            && MoveNextSibling(ev, m, budget, depth)
               == if !IsItem(m'.sub) || depth' <= 0 then (m', budget') else MoveNextSibling(ev, m', budget', depth')
  {
    hide Inv, Step, NextProperty;
    StepInv(ev, m);
    LimitInv(ev, m);
  }

  lemma JumpMoves(ev: Event, m: Core, budget: nat, depth: int)
    requires Inv(ev, m) && AtSimpleArray(m)
    ensures var (m', budget') := MoveNextSibling(ev, m, budget, 0);
            && (IsItem(m'.sub) ==> budget' < budget)
            && MoveNextSibling(ev, m, budget, depth)
               == if !IsItem(m'.sub) || depth <= 0 then (m', budget') else MoveNextSibling(ev, m', budget', depth)
  {
    hide Step, NextProperty, ReadType, StackOk, OnField;
    LimitInv(ev, m);
    NextPropertyInv(ev, JumpArray(m));
  }

  /** One turn of the loop that passes a simple array. */
  lemma JumpKeeps(ev: Event, m: Core, d: Draft, style: Style, depth: int, wantName: bool, whole: bool, budget: nat)
    requires Inv(ev, m) && AtSimpleArray(m) && Writing(ev, m, d, style, depth, wantName, whole)
    ensures var m' := MoveNextSibling(ev, m, budget, 0).0;
            var d' := Complete(d, SimpleNode(ev, m));
            && Inv(ev, m')
            && MoveFollows(ev, DraftBrackets(d'), m')
            && (IsItem(m'.sub) && depth > 0 ==> Writing(ev, m', d', style, depth, wantName, whole))
            && (!whole ==> depth == Levels(d') && (d'.Base? ==> |d'.nodes| == 1))
            && (whole ==> depth == Levels(d') + 1)
  {
    hide Inv, MoveFollows, Render, List, MoveNextSibling;
    JumpStillFits(ev, m, d, budget);
    RenderComplete(d, SimpleNode(ev, m), style);
  }

  /** At the end of the event nothing is open; and then all that was written is at the base. */
  lemma EndIsBase(ev: Event, m: Core, d: Draft)
    requires Inv(ev, m) && m.sub == AfterLastItem && MoveFollows(ev, DraftBrackets(d), m)
    ensures d.Base?
  {
  }

  /** The brackets in which the item at `m` stands. */
  function BracketsBefore(ev: Event, m: Core): Brackets
    requires Inv(ev, m)
  {
    var bs := StackBrackets(ev, m.stack);
    if m.sub == ArrayBegin then bs
    else InElement(bs, IsArray(m.ft.encoding), LabelOf(ev, m), m.top.count, m.top.index)
  }

  lemma StartFits(ev: Event, m: Core)
    requires Inv(ev, m) && Starts(m.sub)
    ensures MoveFollows(ev, BracketsBefore(ev, m), m)
  {
    hide StackOk, OnField, ReadType, WithoutFlags, StackBrackets;
    StackNotInArray(ev, m.stack);
  }

  function StartDraft(ev: Event, m: Core): Draft
    requires Inv(ev, m)
  {
    if Starts(m.sub) then Base(BracketsBefore(ev, m), []) else Base(Outside, [])
  }

  lemma WritingStarts(ev: Event, m: Core, style: Style, wantName: bool)
    requires Inv(ev, m) && (m.sub == BeforeFirstItem || Starts(m.sub))
    requires style.named == (m.sub == BeforeFirstItem || (wantName && !IsElement(m)))
    ensures Writing(ev, m, StartDraft(ev, m), style, 0, wantName, m.sub == BeforeFirstItem)
    ensures Render(StartDraft(ev, m), style) == []
  {
    hide Inv, BracketsBefore, MoveFollows;
    if Starts(m.sub) {
      StartFits(ev, m);
    }
  }

  /** What one turn writes before it moves, and the brackets it leaves open. */
  method WriteTurn(json: JsonWriter, state: EnumeratorState, named: bool, key: Label, value: bytes, depth: int,
                   ghost ev: Event, ghost m: Core, ghost d: Draft, ghost style: Style, ghost wantName: bool,
                   ghost whole: bool, ghost claimed: bool)
    returns (depth': int)
    requires Inv(ev, m) && CanMoveNext(m.sub) && state == StateOf(m.sub) && named == (wantName && !IsElement(m))
    requires key == LabelOf(ev, m) && value == ValueOf(ev, m)
    requires claimed ==> Writing(ev, m, d, style, depth, wantName, whole) && Shows(json, d, style)
    requires !claimed ==> m.sub == ArrayEnd || m.sub == StructEnd
    modifies json
    ensures claimed ==> Shows(json, WithItem(ev, d, m), style)
    ensures depth' == depth + (if m.sub == BeforeFirstItem then 1 else DepthChange(m.sub))
  {
    hide Inv, Render, List, Body, Writing, Levels;
    depth' := depth;
    if state == StateBeforeFirstItem {
      depth' := depth + 1;
    } else if state == StateArrayEnd || state == StateStructEnd {
      if claimed {
        EndsAreNested(ev, m, d, style, depth, wantName, whole);
        RenderClosed(d, style);
      }
      json.WriteEnd(if state == StateArrayEnd then CloseBracket else CloseBrace);
      depth' := depth - 1;
    } else {
      NamesAreRight(ev, m, d, style, depth, wantName, whole);
      WriteStart(json, state, named, key, value, ev, m, d, style);
      if state != StateValue {
        depth' := depth + 1;
      }
    }
  }

  /** The depth at which `move_next_sibling` would stand: it does not count the whole event as a level. */
  function SiblingDepth(m: Core, depth: int): int { if m.sub == BeforeFirstItem then 1 else depth }

  /** The draft at the end of the loop: nothing is open unless the event has ended, or failed. */
  ghost predicate Ended(ev: Event, m: Core, d: Draft, depth: int, whole: bool)
    requires Inv(ev, m)
  {
    && (!IsItem(m.sub) || depth <= 0)
    && MoveFollows(ev, DraftBrackets(d), m)
    && (whole ==> depth == Levels(d) + 1)
    && (!whole ==> depth == Levels(d) && (d.Base? ==> |d.nodes| == 1))
  }

  /** One turn, the move included, for the loop and for `move_next_sibling` beside it. */
  lemma PlainTurn(ev: Event, m: Core, d: Draft, style: Style, depth: int, wantName: bool, whole: bool, budget: nat)
    requires Inv(ev, m) && CanMoveNext(m.sub) && !AtSimpleArray(m)
    requires Writing(ev, m, d, style, depth, wantName, whole)
    ensures var m' := MoveNext(ev, m, budget).0;
            var depth' := depth + (if m.sub == BeforeFirstItem then 1 else DepthChange(m.sub));
            && Inv(ev, m')
            && if IsItem(m'.sub) && depth' > 0 then Writing(ev, m', WithItem(ev, d, m), style, depth', true, whole)
               else Ended(ev, m', WithItem(ev, d, m), depth', whole)
  {
    hide Inv, MoveNext, Writing, WithItem, MoveFollows, Levels;
    TurnKeeps(ev, m, d, style, depth, wantName, whole, budget);
  }

  lemma JumpTurn(ev: Event, m: Core, d: Draft, style: Style, depth: int, wantName: bool, whole: bool, budget: nat)
    requires Inv(ev, m) && AtSimpleArray(m) && Writing(ev, m, d, style, depth, wantName, whole)
    ensures var m' := MoveNextSibling(ev, m, budget, 0).0;
            var d' := Complete(d, SimpleNode(ev, m));
            && Inv(ev, m')
            && if IsItem(m'.sub) && depth > 0 then Writing(ev, m', d', style, depth, wantName, whole)
               else Ended(ev, m', d', depth, whole)
  {
    hide Inv, MoveNext, MoveFollows, Levels, MoveNextSibling, Complete, Writing;
    JumpKeeps(ev, m, d, style, depth, wantName, whole, budget);
  }

  /** The turns of the two loops match. */
  lemma SiblingTurn(ev: Event, m: Core, budget: nat, depth: int)
    requires Inv(ev, m) && CanMoveNext(m.sub) && !AtSimpleArray(m) && (m.sub == BeforeFirstItem ==> depth == 0)
    ensures var (m', budget') := MoveNext(ev, m, budget);
            var depth' := depth + (if m.sub == BeforeFirstItem then 1 else DepthChange(m.sub));
            && Inv(ev, m') && (IsItem(m'.sub) ==> budget' < budget)
            && MoveNextSibling(ev, m, budget, SiblingDepth(m, depth))
               == if !IsItem(m'.sub) || depth' <= 0 then (m', budget') else MoveNextSibling(ev, m', budget', depth')
  {
    hide Inv, MoveNext, MoveNextSibling;
    TurnMoves(ev, m, budget, SiblingDepth(m, depth));
  }

  lemma WritingEnds(ev: Event, m: Core, d: Draft, style: Style, depth: int, whole: bool)
    requires Inv(ev, m) && Ended(ev, m, d, depth, whole)
    requires m.sub != Error && (whole ==> m.sub == AfterLastItem)
    ensures d.Base? && Render(d, style) == Led(style.lead, d.nodes, style.named)
    ensures NeedsComma(d, style) == (style.lead || d.nodes != [])
    ensures !whole ==> |d.nodes| == 1
  {
    hide Inv, Led;
    if m.sub == AfterLastItem {
      EndIsBase(ev, m, d);
    }
  }

  function DraftAfter(ev: Event, d: Draft, m: Core): Draft {
    if AtSimpleArray(m) then Complete(d, SimpleNode(ev, m)) else WithItem(ev, d, m)
  }

  function ViewAfter(ev: Event, m: Core, budget: nat): Core
    requires Inv(ev, m) && CanMoveNext(m.sub)
  {
    if AtSimpleArray(m) then MoveNextSibling(ev, m, budget, 0).0 else MoveNext(ev, m, budget).0
  }

  /** Each turn takes the path on, unless the move fails. */
  lemma TurnPath(ev: Event, path: seq<Core>, first: Core, m: Core, d: Draft, style: Style, depth: int,
      wantName: bool, whole: bool, budget: nat)
    returns (path': seq<Core>)
    requires Inv(ev, m) && CanMoveNext(m.sub) && Writing(ev, m, d, style, depth, wantName, whole)
    requires Follow(ev, path, d, first, m)
    ensures var m' := ViewAfter(ev, m, budget);
            m'.sub != Error ==> Follow(ev, path', DraftAfter(ev, d, m), first, m')
  {
    hide Inv, Step, Spells, MoveFollows, Levels, WithItem, Complete, NextProperty;
    if AtSimpleArray(m) {
      path' := JumpPath(ev, path, m, d);
      JumpsTo(ev, m, budget);
      JumpIsNoStart(ev, JumpArray(m));
    } else {
      if m.sub == ArrayEnd || m.sub == StructEnd {
        EndsAreNested(ev, m, d, style, depth, wantName, whole);
      }
      path' := PlainPath(ev, path, m, d);
    }
  }

  lemma JumpIsNoStart(ev: Event, m: Core)
    requires CanRead(ev, m) && m.top.remaining <= TOP_LEVEL_FIELD_LIMIT
    ensures NextProperty(ev, m).sub != BeforeFirstItem
  {
    hide NextProperty;
    NextPropertyFollows(ev, m);
  }

  /** One turn of the loop: what it writes, and its move. */
  method Turn(ctx: Enumerator.EventHeaderEnumeratorContext, data: bytes, json: JsonWriter, depth: int, wantName: bool,
              ghost d: Draft, ghost style: Style, ghost whole: bool, ghost claimed: bool)
    returns (depth': int, wantName': bool, goesOn: bool, ghost d': Draft)
    requires ctx.Valid(data) && CanMoveNext(ctx.substate)
    requires json as object != ctx && json as object != ctx.stack
    requires claimed ==> Shows(json, d, style) && Writing(ctx.Ev(data), ctx.View(), d, style, depth, wantName, whole)
    requires !claimed ==> depth == 0 && (ctx.substate == ArrayEnd || ctx.substate == StructEnd)
    modifies ctx, ctx.stack, json
    ensures ctx.Valid(data) && ctx.Ev(data) == old(ctx.Ev(data))
    ensures claimed ==> Shows(json, d', style)
    ensures claimed && !goesOn ==> Ended(ctx.Ev(data), ctx.View(), d', depth', whole)
    ensures goesOn ==> claimed && CanMoveNext(ctx.substate) && ctx.moveNextRemaining < old(ctx.moveNextRemaining)
    ensures goesOn && claimed ==> Writing(ctx.Ev(data), ctx.View(), d', style, depth', wantName', whole)
    ensures d' == DraftAfter(old(ctx.Ev(data)), d, old(ctx.View()))
    ensures ctx.View() == ViewAfter(old(ctx.Ev(data)), old(ctx.View()), old(ctx.moveNextRemaining))
    ensures MoveNextSibling(old(ctx.Ev(data)), old(ctx.View()), old(ctx.moveNextRemaining),
            SiblingDepth(old(ctx.View()), depth))
         == if goesOn
            then MoveNextSibling(ctx.Ev(data), ctx.View(), ctx.moveNextRemaining, SiblingDepth(ctx.View(), depth'))
            else (ctx.View(), ctx.moveNextRemaining)
  {
    hide Inv, Step, MoveNext, Writing, Shows, Render, WithItem, Levels, MoveFollows, MoveNextSibling, IsElement, Led,
      Complete, BaseOf, DraftBrackets, Ended;
    ghost var ev := ctx.Ev(data);
    ghost var m := ctx.View();
    ghost var budget: nat := ctx.moveNextRemaining;
    var key := Label(Slice(data, ctx.stackTop.name, ctx.stackTop.nameLen), ctx.fieldType.tag);
    var value := Slice(data, ctx.dataPosCooked, ctx.itemSizeCooked);
    var moved;
    if ctx.substate == ArrayBegin && ctx.elementSize != 0 {
      JumpTurn(ev, m, d, style, depth, wantName, whole, budget);
      JumpMoves(ev, m, budget, depth);
      NamesAreRight(ev, m, d, style, depth, wantName, whole);
      ElementIsSame(ctx);
      SimpleArraySize(ev, m);
      WriteJump(json, WithoutFlags(ctx.fieldType.encoding), key, value, m.top.count, wantName && !ctx.IsElement(), d,
          style);
      moved := ctx.MoveNextSiblingImpl(data);
      depth', wantName', d' := depth, wantName, Complete(d, SimpleNode(ev, m));
    } else {
      if claimed {
        PlainTurn(ev, m, d, style, depth, wantName, whole, budget);
        FirstDepth(ev, m, d, style, depth, wantName, whole);
      }
      SiblingTurn(ev, m, budget, depth);
      ElementIsSame(ctx);
      depth' := WriteTurn(json, ctx.state, wantName && !ctx.IsElement(), key, value, depth, ev, m, d, style,
          wantName, whole, claimed);
      moved := ctx.MoveNextImpl(data);
      wantName', d' := true, WithItem(ev, d, m);
    }
    goesOn := moved && depth' > 0;
  }

  lemma FirstDepth(ev: Event, m: Core, d: Draft, style: Style, depth: int, wantName: bool, whole: bool)
    requires Inv(ev, m) && Writing(ev, m, d, style, depth, wantName, whole)
    ensures m.sub == BeforeFirstItem ==> depth == 0
  {
  }

  lemma ElementIsSame(ctx: Enumerator.EventHeaderEnumeratorContext)
    requires ctx.Shape()
    ensures ctx.IsElement() == IsElement(ctx.View())
  {
  }

  /**
   * Writes one item with all it contains, or all items if none has been visited yet, and moves past
   * what it wrote, as `move_next_sibling` would. The text is one member or value, or the list of all
   * members; and a comma is due after it exactly if something was written or one was due before.
   */
  method WriteJsonItemAndMoveNextSibling(ctx: Enumerator.EventHeaderEnumeratorContext, data: bytes,
                                         addComma: bool, rootName: bool, spaces: bool)
    returns (comma: bool, json: JsonWriter, ghost nodes: seq<Node>, ghost path: seq<Core>)
    requires ctx.Valid(data) && CanMoveNext(ctx.substate)
    modifies ctx, ctx.stack
    ensures ctx.Valid(data) && ctx.Ev(data) == old(ctx.Ev(data)) && comma == json.comma
    ensures (ctx.View(), ctx.moveNextRemaining)
         == MoveNextSibling(old(ctx.Ev(data)), old(ctx.View()), old(ctx.moveNextRemaining),
                            SiblingDepth(old(ctx.View()), 0))
    ensures old(ctx.substate) == BeforeFirstItem && ctx.substate == AfterLastItem ==>
              json.Text() == Led(addComma, nodes, true) && comma == (addComma || nodes != [])
    ensures Starts(old(ctx.substate)) && ctx.substate != Error ==>
              |nodes| == 1 && comma
              && json.Text() == Led(addComma, nodes, rootName && !IsElement(old(ctx.View())))
    ensures ctx.substate != Error
            && (Starts(old(ctx.substate))
                || (old(ctx.substate) == BeforeFirstItem && ctx.substate == AfterLastItem)) ==>
              && IsPath(ctx.Ev(data), path) && path[0] == old(ctx.View()) && Agree(ctx.View(), Last(path))
              && Word(ctx.Ev(data), path[..|path| - 1]) == SpellAll(nodes)
  {
    hide Inv, Step, MoveNext, Writing, Shows, Render, WithItem, Levels, MoveFollows, MoveNextSibling, StartDraft,
      IsElement, Led, Complete, BaseOf, DepthChange, DraftBrackets, Ended,
      Follow, IsPath, Agree, ViewAfter, DraftAfter, SpellDraft, Word, SpellAll;
    ghost var ev := ctx.Ev(data);
    ghost var first := ctx.View();
    ghost var whole := ctx.substate == BeforeFirstItem;
    ghost var claimed := whole || Starts(ctx.substate);
    ghost var style := Style(addComma, whole || (rootName && !IsElement(first)));
    ghost var d := StartDraft(ev, first);
    var wantName := rootName;
    json := new JsonWriter(spaces, addComma);
    var depth := 0;
    NotClaimed(first);
    if claimed {
      WritingStarts(ev, first, style, wantName);
      ShowsStart(json, ev, first, style);
      DraftEmpty(ev, first);
      FollowStart(ev, first, d);
    }
    path := [first];
    var goesOn := true;
    while goesOn
      invariant ctx.Valid(data) && ctx.Ev(data) == ev && fresh(json)
      invariant claimed ==> Shows(json, d, style)
      invariant goesOn && claimed ==> Writing(ev, ctx.View(), d, style, depth, wantName, whole)
      invariant goesOn ==> CanMoveNext(ctx.substate)
      invariant claimed && (goesOn || ctx.substate != Error) ==> Follow(ev, path, d, first, ctx.View())
      invariant goesOn && !claimed ==> ctx.substate == ArrayEnd || ctx.substate == StructEnd
      invariant goesOn && !claimed ==> depth == 0
      invariant !goesOn && claimed ==> Ended(ev, ctx.View(), d, depth, whole)
      invariant MoveNextSibling(ev, first, old(ctx.moveNextRemaining), SiblingDepth(first, 0))
             == if goesOn then MoveNextSibling(ev, ctx.View(), ctx.moveNextRemaining, SiblingDepth(ctx.View(), depth))
                else (ctx.View(), ctx.moveNextRemaining)
      decreases ctx.moveNextRemaining, goesOn
    {
      if claimed {
        path := TurnPath(ev, path, first, ctx.View(), d, style, depth, wantName, whole, ctx.moveNextRemaining);
      }
      depth, wantName, goesOn, d := Turn(ctx, data, json, depth, wantName, d, style, whole, claimed);
    }
    comma := json.comma;
    nodes := d.nodes;
    if claimed && ctx.substate != Error && (whole ==> ctx.substate == AfterLastItem) {
      WritingEnds(ev, ctx.View(), d, style, depth, whole);
      ShowsMeans(json, d, style);
      FollowEnds(ev, path, d, first, ctx.View());
    }
  }

  lemma FollowEnds(ev: Event, path: seq<Core>, d: Draft, first: Core, m: Core)
    requires Follow(ev, path, d, first, m) && d.Base?
    ensures IsPath(ev, path) && path[0] == first && Agree(m, Last(path))
    ensures Word(ev, path[..|path| - 1]) == SpellAll(d.nodes)
  {
    hide IsPath, Word, SpellAll;
  }

  lemma ShowsMeans(json: JsonWriter, d: Draft, style: Style)
    requires Shows(json, d, style)
    ensures json.Text() == Render(d, style) && json.comma == NeedsComma(d, style)
  {
  }

  lemma NotClaimed(m: Core)
    requires CanMoveNext(m.sub)
    ensures m.sub == BeforeFirstItem || Starts(m.sub) || m.sub == ArrayEnd || m.sub == StructEnd
  {
  }

  lemma ShowsStart(json: JsonWriter, ev: Event, m: Core, style: Style)
    requires Inv(ev, m) && json.out == [] && json.comma == style.lead
    requires Render(StartDraft(ev, m), style) == []
    ensures Shows(json, StartDraft(ev, m), style)
  {
  }

  lemma DraftEmpty(ev: Event, m: Core)
    requires Inv(ev, m)
    ensures StartDraft(ev, m).Base? && StartDraft(ev, m).nodes == []
  {
  }
}

/**
 * What `move_next_sibling` passes: from the begin of an array or struct, or a value, exactly one node, and
 * given budget enough it always arrives.
 */
module EnumeratorSiblingPath {
  import Bytes
  import FieldTypes
  import opened EnumeratorModel
  import opened EnumeratorBudget
  import opened EnumeratorNesting
  import opened EnumeratorRuns
  import opened EnumeratorSibling
  import opened EnumeratorTermination
  import opened JsonOutput

  // ---- it arrives ----

  /** No move by itself ends with the error of the limit. */
  lemma StepNotLimited(ev: Event, m: Core)
    requires Inv(ev, m) && CanMoveNext(m.sub)
    ensures !Limited(Step(ev, m))
  {
    hide ReadType, NameEnd, StackOk, OnField, ScanZero, NextProperty, SkipFields, StartValue;
    match m.sub
    case ArrayEnd =>
      if WithoutFlagsIsStruct(m) && m.top.count == 0 {
        SkipNotLimited(ev, m, m.ft.format);
        if SkipStructMetadata(ev, m).sub != Error {
          NextNotLimited(ev, SkipStructMetadata(ev, m));
        }
      } else {
        NextNotLimited(ev, m);
      }
    case StructBegin =>
      if |m.stack| < STRUCT_NEST_LIMIT {
        EnterMoves(ev, m);
        NextNotLimited(ev, PushStruct(m));
      }
    case StructEnd =>
      if CanRead(ev, m.(top := m.top.(index := m.top.index + 1))) {
        NextNotLimited(ev, m.(top := m.top.(index := m.top.index + 1)));
      }
    case ArrayBegin => StartNotLimited(ev, m.(sub := ValueComplexArrayElement));
    case ValueComplexArrayElement => StartNotLimited(ev, NextElement(m));
    case ValueScalar =>
      LeaveScalar(ev, m);
      NextNotLimited(ev, m.(pos := m.pos + m.rawSize));
    case BeforeFirstItem => NextNotLimited(ev, m);
    case _ =>
  }

  predicate WithoutFlagsIsStruct(m: Core) { FieldTypes.WithoutFlags(m.ft.encoding) == FieldTypes.ENCODING_STRUCT }

  lemma StartNotLimited(ev: Event, m: Core)
    requires ev.Valid() && m.pos <= |ev.data| && m.sub != Error
    ensures !Limited(StartValue(ev, m)) && !Limited(StartArray(ev, m))
  {
    hide ScanZero;
  }

  lemma NextNotLimited(ev: Event, m: Core)
    requires CanRead(ev, m)
    ensures !Limited(NextProperty(ev, m))
  {
    hide ReadType, NameEnd, StackOk, ScanZero, StartValue, StartArray, ReadField;
    if m.top.remaining != 0 && m.top.next != ev.metaEnd {
      var top0 := m.top.(remaining := m.top.remaining - 1, index := 0, name := m.top.next);
      var (ft, top1) := ReadField(ev, top0);
      FieldNotLimited(ev, m.(ft := ft, top := top1));
    }
  }

  lemma FieldNotLimited(ev: Event, m: Core)
    requires ev.Valid() && m.pos <= |ev.data| && m.top.next <= ev.metaEnd
    ensures !Limited(FieldRead(ev, m))
  {
    hide StartValue, StartArray;
    StartNotLimited(ev, m.(top := m.top.(count := 1), sub := ValueScalar));
    if |ev.data| - m.pos >= 2 {
      ArrayNotLimited(ev, m.(top := m.top.(count := ev.U16(m.pos)), pos := m.pos + 2));
    }
    if ev.metaEnd - m.top.next >= 2 {
      ArrayNotLimited(ev, m.(top := m.top.(count := ev.U16(m.top.next), next := m.top.next + 2)));
    }
  }

  lemma ArrayNotLimited(ev: Event, m: Core)
    requires ev.Valid() && m.pos <= |ev.data|
    ensures !Limited(StartArray(ev, m))
  {
  }

  lemma {:induction false} SkipNotLimited(ev: Event, m: Core, remaining: Bytes.byte)
    requires CanRead(ev, m) && m.sub != Error
    ensures !Limited(SkipFields(ev, m, remaining))
    decreases ev.metaEnd - m.top.next
  {
    hide CanRead, ReadField, PendingAfter;
    if remaining != 0 && m.top.next != ev.metaEnd {
      var (m1, ft) := SkipField(ev, m);
      SkipFieldNotLimited(ev, m);
      hide SkipField;
      if m1.sub != Error {
        SkipNotLimited(ev, m1, PendingAfter(remaining, ft));
      }
    }
  }

  lemma SkipFieldNotLimited(ev: Event, m: Core)
    requires CanRead(ev, m) && m.sub != Error && m.top.next != ev.metaEnd
    ensures !Limited(SkipField(ev, m).0)
  {
    hide StackOk, ReadType, NameEnd;
  }

  /** Some number of moves is enough to get past the item by stepping. */
  lemma {:induction false} SteppingArrives(ev: Event, m: Core, depth: int) returns (budget: nat)
    requires Inv(ev, m) && CanMoveNext(m.sub)
    ensures !Limited(StepPast(ev, m, budget, depth).0)
    decreases LevelDigit(ev, m, 0), LevelDigit(ev, m, 1), LevelDigit(ev, m, 2),
              LevelDigit(ev, m, 3), LevelDigit(ev, m, 4), LevelDigit(ev, m, 5),
              LevelDigit(ev, m, 6), LevelDigit(ev, m, 7), LevelDigit(ev, m, 8)
  {
    hide Inv, LevelDigit, Falls, Step, StepPast;
    StepInv(ev, m);
    StepFalls(ev, m);
    FallsByLevel(ev, m, Step(ev, m));
    StepNotLimited(ev, m);
    var m' := Step(ev, m);
    var depth' := depth + DepthChange(m.sub);
    budget := 0;
    if IsItem(m'.sub) && depth' > 0 {
      budget := SteppingArrives(ev, m', depth');
    }
    budget := budget + 1;
    StepPastOnce(ev, m, budget, depth);
  }

  /** From any item there is a budget from which on `move_next_sibling` is never stopped by it. */
  lemma SiblingArrives(ev: Event, m: Core) returns (enough: nat)
    requires Inv(ev, m) && CanMoveNext(m.sub)
    ensures forall budget: nat :: budget >= enough ==> !Limited(MoveNextSibling(ev, m, budget, 0).0)
  {
    hide Inv, StepPast, MoveNextSibling;
    enough := SteppingArrives(ev, m, 0);
    forall budget: nat | budget >= enough ensures !Limited(MoveNextSibling(ev, m, budget, 0).0) {
      SiblingRefinesStepping(ev, m, budget, enough, 0);
    }
  }

  // ---- what it passes ----

  lemma {:induction false} SiblingFollows(ev: Event, path: seq<Core>, first: Core, m: Core, d: Draft, style: Style,
      depth: int, wantName: bool, budget: nat)
    returns (path': seq<Core>, d': Draft)
    requires Inv(ev, m) && CanMoveNext(m.sub) && Writing(ev, m, d, style, depth, wantName, false)
    requires Follow(ev, path, d, first, m)
    ensures var m' := MoveNextSibling(ev, m, budget, depth).0;
            m'.sub != Error ==>
              && d'.Base? && |d'.nodes| == 1 && BaseAfter(d') == BaseAfter(d)
              && MoveFollows(ev, DraftBrackets(d'), m')
              && Follow(ev, path', d', first, m')
    decreases budget
  {
    hide Inv, Step, MoveNext, Writing, MoveNextSibling, Follow, Ended, Render, Levels, DraftBrackets, WithItem,
      Complete, NextProperty, Spells, BaseOf, MoveFollows, BaseAfter;
    path' := TurnPath(ev, path, first, m, d, style, depth, wantName, false, budget);
    d' := DraftAfter(ev, d, m);
    NotBefore(ev, m, d, style, depth, wantName);
    BaseIsSame(ev, m, d, style, depth, wantName);
    var m', depth' := ViewAfter(ev, m, budget), depth;
    if AtSimpleArray(m) {
      JumpTurn(ev, m, d, style, depth, wantName, false, budget);
      JumpMoves(ev, m, budget, depth);
    } else {
      PlainTurn(ev, m, d, style, depth, wantName, false, budget);
      SiblingTurn(ev, m, budget, depth);
      depth' := depth + DepthChange(m.sub);
    }
    if IsItem(m'.sub) && depth' > 0 {
      var budget' := if AtSimpleArray(m) then MoveNextSibling(ev, m, budget, 0).1 else MoveNext(ev, m, budget).1;
      path', d' := SiblingFollows(ev, path', first, m', d', style, depth', if AtSimpleArray(m) then wantName else true,
          budget');
    } else if m'.sub != Error {
      WritingEnds(ev, m', d', style, depth', false);
      EndedFollows(ev, m', d', depth');
    }
  }

  /** The brackets outside once the item passed has been counted. */
  function BaseAfter(d: Draft): Brackets {
    var b := BaseOf(d);
    if b.nodes == [] then Counted(DraftBrackets(b)) else DraftBrackets(b)
  }

  lemma NotBefore(ev: Event, m: Core, d: Draft, style: Style, depth: int, wantName: bool)
    requires Inv(ev, m) && Writing(ev, m, d, style, depth, wantName, false)
    ensures m.sub != BeforeFirstItem && BaseOf(d).nodes == []
    ensures m.sub == ArrayEnd || m.sub == StructEnd ==> d.Nested?
  {
    hide Inv;
  }

  lemma EndedFollows(ev: Event, m: Core, d: Draft, depth: int)
    requires Inv(ev, m) && Ended(ev, m, d, depth, false)
    ensures MoveFollows(ev, DraftBrackets(d), m)
  {
    hide Inv, MoveFollows;
  }

  lemma CompleteCounts(d: Draft, n: Node)
    requires BaseOf(d).nodes == []
    ensures BaseAfter(Complete(d, n)) == BaseAfter(d)
  {
    hide Complete;
    BaseComplete(d, n);
  }

  lemma BaseIsSame(ev: Event, m: Core, d: Draft, style: Style, depth: int, wantName: bool)
    requires Inv(ev, m) && CanMoveNext(m.sub) && Writing(ev, m, d, style, depth, wantName, false)
    ensures BaseAfter(DraftAfter(ev, d, m)) == BaseAfter(d)
  {
    NotBefore(ev, m, d, style, depth, wantName);
    hide Inv, Writing, Complete;
    CompleteCounts(d, Leaf(LabelOf(ev, m), ValueOf(ev, m)));
    CompleteCounts(d, SimpleNode(ev, m));
    if d.Nested? {
      CompleteCounts(d.outer, LevelNode(d));
    }
  }

  /**
   * From a value, or the begin of an array or struct, `move_next_sibling` passes, unless it fails, exactly the
   * items of one node, and arrives where the enclosing brackets, with that node counted, go on.
   */
  lemma SiblingPassesOneNode(ev: Event, m: Core, budget: nat) returns (path: seq<Core>, node: Node)
    requires Inv(ev, m) && Starts(m.sub)
    ensures var m' := MoveNextSibling(ev, m, budget, 0).0;
            m'.sub != Error ==>
              && IsPath(ev, path) && path[0] == m && Agree(m', Last(path))
              && Word(ev, path[..|path| - 1]) == Spell(node)
              && MoveFollows(ev, Counted(BracketsBefore(ev, m)), m')
  {
    hide Inv, MoveNextSibling, Writing, Follow, BracketsBefore, MoveFollows, IsPath, Agree, Word, Spell;
    var style := Style(false, !IsElement(m));
    var d := StartDraft(ev, m);
    WritingStarts(ev, m, style, true);
    FollowStart(ev, m, d);
    var d';
    path, d' := SiblingFollows(ev, [m], m, m, d, style, 0, true, budget);
    if MoveNextSibling(ev, m, budget, 0).0.sub != Error {
      node := d'.nodes[0];
      FollowEnds(ev, path, d', m, MoveNextSibling(ev, m, budget, 0).0);
      OneSpells(d'.nodes);
    } else {
      node := Leaf(LabelOf(ev, m), []);
    }
  }

  lemma OneSpells(nodes: seq<Node>)
    requires |nodes| == 1
    ensures SpellAll(nodes) == Spell(nodes[0])
  {
    hide Spell;
    assert nodes[..0] == [];
    assert SpellAll([]) == [];
  }
}

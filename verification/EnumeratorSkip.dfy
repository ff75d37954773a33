/**
 * When the flat counter of `skip_struct_metadata` stops where the decoder's struct stack arrives. Both
 * are compared with the nested walk of a struct's members, which is defined here on its own.
 */
module EnumeratorSkip {
  import opened Bytes
  import opened FieldTypes
  import opened EnumeratorModel
  import opened EnumeratorRuns
  import opened Wrappers

  /** The field declared at `pos`: its type, and where its declaration ends, members aside. */
  function MetaField(ev: Event, pos: nat): (r: Option<(FieldType, nat)>)
    requires ev.Valid() && pos < ev.metaEnd
    ensures r.Some? ==> pos < r.value.1 <= ev.metaEnd
    ensures r.Some? && SkipsCount(r.value.0) ==> pos < r.value.1 - 2
  {
    var nameEnd := NameEnd(ev, pos);
    if ev.metaEnd - nameEnd < 2 then None
    else
      var (ft, next) := ReadType(ev, nameEnd + 1);
      if ft.encoding == ENCODING_INVALID then None
      else if !SkipsCount(ft) then Some((ft, next))
      else if ev.metaEnd - next < 2 then None
      else Some((ft, next + 2))
  }

  /** A constant-length array stores its count in the metadata. */
  predicate SkipsCount(ft: FieldType) {
    IsConstantLengthArray(ft.encoding) && !IsVariableLengthArray(ft.encoding)
  }

  /** The members a field declares: its format if it is a struct, none otherwise. */
  function Members(ft: FieldType): nat {
    if WithoutFlags(ft.encoding) == ENCODING_STRUCT then ft.format else 0
  }

  /** Where `count` fields and all their members end: nested, field by field; early at the metadata's end. */
  function Walk(ev: Event, pos: nat, count: nat): (r: Option<nat>)
    requires ev.Valid() && pos <= ev.metaEnd
    ensures r.Some? ==> pos <= r.value <= ev.metaEnd
    decreases ev.metaEnd - pos, count
  {
    if count == 0 || pos == ev.metaEnd then Some(pos)
    else
      match MetaField(ev, pos)
      case None => None
      case Some((ft, next)) =>
        match Walk(ev, next, Members(ft))
        case None => None
        case Some(end) => Walk(ev, end, count - 1)
  }

  /** The flat form: one counter of pending fields, which a struct's members join. */
  function FlatWalk(ev: Event, pos: nat, pending: nat): Option<nat>
    requires ev.Valid() && pos <= ev.metaEnd
    decreases ev.metaEnd - pos
  {
    if pending == 0 || pos == ev.metaEnd then Some(pos)
    else
      match MetaField(ev, pos)
      case None => None
      case Some((ft, next)) => FlatWalk(ev, next, pending - 1 + Members(ft))
  }

  lemma {:induction false} FlatSplits(ev: Event, pos: nat, first: nat, rest: nat)
    requires ev.Valid() && pos <= ev.metaEnd
    ensures FlatWalk(ev, pos, first + rest)
         == match Walk(ev, pos, first) case None => None case Some(end) => FlatWalk(ev, end, rest)
    decreases ev.metaEnd - pos, first
  {
    hide MetaField;
    if first != 0 && pos != ev.metaEnd {
      match MetaField(ev, pos)
      case None =>
      case Some((ft, next)) =>
        FlatSplits(ev, next, Members(ft), first - 1 + rest);
        match Walk(ev, next, Members(ft))
        case None =>
        case Some(end) =>
          FlatSplits(ev, end, first - 1, rest);
    }
  }

  /** Counting flat and walking nested are the same, on all metadata. */
  lemma FlatIsNested(ev: Event, pos: nat, count: nat)
    requires ev.Valid() && pos <= ev.metaEnd
    ensures FlatWalk(ev, pos, count) == Walk(ev, pos, count)
  {
    FlatSplits(ev, pos, count, 0);
  }

  // ---- when the skip stops there ----

  /** At no field that the walk meets is the true number of pending fields, which it is one of, a multiple of 256. */
  predicate NeverWraps(ev: Event, pos: nat, pending: nat)
    requires ev.Valid() && pos <= ev.metaEnd
    decreases ev.metaEnd - pos
  {
    if pending == 0 || pos == ev.metaEnd then true
    else
      && pending % 256 != 0
      && match MetaField(ev, pos)
         case None => true
         case Some((ft, next)) => NeverWraps(ev, next, pending - 1 + Members(ft))
  }

  /** Both array flags: reserved, and not to be told from variable length except by the skip. */
  predicate BothFlags(ft: FieldType) {
    IsConstantLengthArray(ft.encoding) && IsVariableLengthArray(ft.encoding)
  }

  /** No field that the walk meets has both array flags. */
  predicate NoneReserved(ev: Event, pos: nat, pending: nat)
    requires ev.Valid() && pos <= ev.metaEnd
    decreases ev.metaEnd - pos
  {
    if pending == 0 || pos == ev.metaEnd then true
    else
      match MetaField(ev, pos)
      case None => true
      case Some((ft, next)) => !BothFlags(ft) && NoneReserved(ev, next, pending - 1 + Members(ft))
  }

  lemma SkipFieldIsMetaField(ev: Event, m: Core)
    requires CanRead(ev, m) && m.sub != Error && m.top.next != ev.metaEnd
    ensures var (m1, ft) := SkipField(ev, m);
            var field := MetaField(ev, m.top.next);
            if m1.sub == Error then
              && m1.top.name == m.top.next
              && (field.None? ==> m1.err == InvalidData)
              && (field.Some? ==> BothFlags(field.value.0) && m1.err == NotSupported)
            else field == Some((ft, m1.top.next)) && !BothFlags(ft)
  {
    hide StackOk, ReadType;
  }

  lemma PendingIs(ev: Event, pending: nat, ft: FieldType)
    requires pending > 0
    ensures PendingAfter(pending % 256, ft) == (pending - 1 + Members(ft)) % 256
  {
  }

  /** What the flat walk, the wrapping and the reserved fields say of the next field. */
  lemma FlatOnce(ev: Event, pos: nat, pending: nat)
    requires ev.Valid() && pos < ev.metaEnd && pending > 0
    ensures NeverWraps(ev, pos, pending) ==> pending % 256 != 0
    ensures match MetaField(ev, pos)
            case None =>
              && FlatWalk(ev, pos, pending) == None
              && (NeverWraps(ev, pos, pending) <==> pending % 256 != 0)
            case Some((ft, next)) =>
              var pending' := pending - 1 + Members(ft);
              && FlatWalk(ev, pos, pending) == FlatWalk(ev, next, pending')
              && (NeverWraps(ev, pos, pending) <==> pending % 256 != 0 && NeverWraps(ev, next, pending'))
              && (NoneReserved(ev, pos, pending) <==> !BothFlags(ft) && NoneReserved(ev, next, pending'))
  {
    hide MetaField;
  }

  lemma {:induction false} FlatAhead(ev: Event, pos: nat, pending: nat)
    requires ev.Valid() && pos <= ev.metaEnd
    ensures FlatWalk(ev, pos, pending).Some? ==> pos <= FlatWalk(ev, pos, pending).value
    decreases ev.metaEnd - pos
  {
    hide MetaField;
    if pending != 0 && pos != ev.metaEnd {
      match MetaField(ev, pos)
      case None =>
      case Some((ft, next)) => FlatAhead(ev, next, pending - 1 + Members(ft));
    }
  }

  lemma {:induction false} SkipIsFlat(ev: Event, m: Core, pending: nat)
    requires CanRead(ev, m) && m.sub != Error
    ensures var r := SkipFields(ev, m, pending % 256);
            var end := FlatWalk(ev, m.top.next, pending);
            var bad := end.None? || !NoneReserved(ev, m.top.next, pending);
            && (r.sub != Error ==> (end == Some(r.top.next) <==> NeverWraps(ev, m.top.next, pending)))
            && (NeverWraps(ev, m.top.next, pending) ==> (r.sub == Error <==> bad))
            && (r.sub == Error ==> bad && FailsOn(ev, r))
    decreases ev.metaEnd - m.top.next
  {
    hide StackOk, ReadType, SkipField, MetaField, PendingAfter;
    SkipFieldsOnce(ev, m, pending % 256);
    if pending != 0 && m.top.next != ev.metaEnd {
      FlatOnce(ev, m.top.next, pending);
      SkipFieldIsMetaField(ev, m);
      var (m1, ft) := SkipField(ev, m);
      match MetaField(ev, m.top.next)
      case None =>
      case Some((ft1, next)) =>
        FlatAhead(ev, next, pending - 1 + Members(ft1));
        if pending % 256 != 0 && m1.sub != Error {
          PendingIs(ev, pending, ft);
          SkipIsFlat(ev, m1, pending - 1 + Members(ft));
        }
    }
  }

  /** The current name is that of a field that is malformed, or that has both array flags. */
  ghost predicate FailsOn(ev: Event, r: Core) {
    && ev.Valid() && r.top.name < ev.metaEnd
    && match MetaField(ev, r.top.name)
       case None => r.err == InvalidData
       case Some((ft, _)) => BothFlags(ft) && r.err == NotSupported
  }

  /**
   * A skip that succeeds ends where the nested walk of the fields ends if and only if the true pending
   * count is at no field a multiple of 256. It fails only where the walk meets a field that is malformed
   * or has both array flags, and, without the wrapping, wherever it meets one.
   */
  lemma SkipIsWalk(ev: Event, m: Core, remaining: byte)
    requires CanRead(ev, m) && m.sub != Error
    ensures var r := SkipFields(ev, m, remaining);
            var end := Walk(ev, m.top.next, remaining);
            var bad := end.None? || !NoneReserved(ev, m.top.next, remaining);
            && (r.sub != Error ==> (end == Some(r.top.next) <==> NeverWraps(ev, m.top.next, remaining)))
            && (NeverWraps(ev, m.top.next, remaining) ==> (r.sub == Error <==> bad))
            && (r.sub == Error ==> bad && FailsOn(ev, r))
  {
    hide StackOk, SkipFields, FlatWalk, Walk, NeverWraps, NoneReserved, FailsOn;
    FlatIsNested(ev, m.top.next, remaining);
    SkipIsFlat(ev, m, remaining);
  }

  /** A field with both array flags, which the skip refuses, is a variable-length array to the decoder. */
  lemma ReservedDiffers(ev: Event, m: Core)
    requires CanRead(ev, m) && m.sub != Error && m.top.next != ev.metaEnd && m.top.remaining != 0
    requires MetaField(ev, m.top.next).Some? && BothFlags(MetaField(ev, m.top.next).value.0)
    ensures SkipField(ev, m).0.sub == Error && SkipField(ev, m).0.err == NotSupported
    ensures var m' := NextField(ev, m);
            && (|ev.data| - m.pos < 2 ==> m'.sub == Error && m'.err == InvalidData)
            && (|ev.data| - m.pos >= 2 ==>
                  m'.pos == m.pos + 2 && m'.top.count == ev.U16(m.pos)
                  && (IsFixed(WithoutFlags(m'.ft.encoding)) && m'.top.count == 0 ==> m'.sub == ArrayBegin))
  {
    hide StackOk, ReadType;
  }

  // ---- with overflow checks ----

  datatype Checked = Overflows | Skipped(m: Core)

  /** The same loop in a build that panics where the counter would wrap. */
  function CheckedFields(ev: Event, m: Core, remaining: byte): Checked
    requires CanRead(ev, m) && m.sub != Error
    decreases ev.metaEnd - m.top.next
  {
    if remaining == 0 || m.top.next == ev.metaEnd then Skipped(m)
    else
      var (m1, ft) := SkipField(ev, m);
      if ft.encoding == ENCODING_INVALID then Skipped(m1)
      else if remaining + Members(ft) > 255 then Overflows
      else if m1.sub == Error then Skipped(m1)
      else CheckedFields(ev, m1, remaining + Members(ft) - 1)
  }

  /** The type declared at `pos`, invalid if there is none. */
  function TypeHere(ev: Event, pos: nat): FieldType
    requires ev.Valid() && pos < ev.metaEnd
  {
    var nameEnd := NameEnd(ev, pos);
    if ev.metaEnd - nameEnd < 2 then NO_TYPE else ReadType(ev, nameEnd + 1).0
  }

  /** At no field that the walk meets, up to the first bad one, are more than 255 fields pending with its members. */
  predicate FitsByte(ev: Event, pos: nat, pending: nat)
    requires ev.Valid() && pos <= ev.metaEnd
    decreases ev.metaEnd - pos
  {
    if pending == 0 || pos == ev.metaEnd || TypeHere(ev, pos).encoding == ENCODING_INVALID then true
    else
      && pending + Members(TypeHere(ev, pos)) <= 255
      && match MetaField(ev, pos)
         case None => true
         case Some((ft, next)) => BothFlags(ft) || FitsByte(ev, next, pending - 1 + Members(ft))
  }

  lemma SkipFieldType(ev: Event, m: Core)
    requires CanRead(ev, m) && m.sub != Error && m.top.next != ev.metaEnd
    ensures SkipField(ev, m).1 == TypeHere(ev, m.top.next)
    ensures SkipField(ev, m).1.encoding == ENCODING_INVALID ==> SkipField(ev, m).0.sub == Error
  {
    hide StackOk, ReadType;
  }

  lemma CheckedOnce(remaining: byte, ft: FieldType)
    requires 0 < remaining && remaining + Members(ft) <= 255
    ensures PendingAfter(remaining, ft) == remaining + Members(ft) - 1
  {
  }

  lemma {:induction false} CheckedIsSkip(ev: Event, m: Core, remaining: byte)
    requires CanRead(ev, m) && m.sub != Error
    ensures var c := CheckedFields(ev, m, remaining);
            && (c == Overflows <==> !FitsByte(ev, m.top.next, remaining))
            && (c.Skipped? ==> c.m == SkipFields(ev, m, remaining))
    decreases ev.metaEnd - m.top.next
  {
    hide CanRead, SkipField, MetaField, TypeHere, PendingAfter, Members, SkipFields;
    SkipFieldsOnce(ev, m, remaining);
    if remaining != 0 && m.top.next != ev.metaEnd {
      SkipFieldType(ev, m);
      SkipFieldIsMetaField(ev, m);
      var (m1, ft) := SkipField(ev, m);
      if m1.sub != Error && remaining + Members(ft) <= 255 {
        CheckedOnce(remaining, ft);
        CheckedIsSkip(ev, m1, remaining + Members(ft) - 1);
      }
    }
  }

  lemma {:induction false} CheckedNeverWraps(ev: Event, m: Core, remaining: byte)
    requires CanRead(ev, m) && m.sub != Error
    ensures var c := CheckedFields(ev, m, remaining);
            c.Skipped? && c.m.sub != Error ==> NeverWraps(ev, m.top.next, remaining)
    decreases ev.metaEnd - m.top.next
  {
    hide CanRead, SkipField, MetaField, TypeHere, Members;
    if remaining != 0 && m.top.next != ev.metaEnd {
      SkipFieldType(ev, m);
      SkipFieldIsMetaField(ev, m);
      var (m1, ft) := SkipField(ev, m);
      if m1.sub != Error && remaining + Members(ft) <= 255 {
        CheckedNeverWraps(ev, m1, remaining + Members(ft) - 1);
      }
    }
  }

  /**
   * Such a build panics if and only if somewhere more than 255 fields are pending. Where it does not, the skip
   * does what it does without the checks, and if it succeeds it ends where the nested walk ends.
   */
  lemma CheckedSkip(ev: Event, m: Core, remaining: byte)
    requires CanRead(ev, m) && m.sub != Error
    ensures var c := CheckedFields(ev, m, remaining);
            && (c == Overflows <==> !FitsByte(ev, m.top.next, remaining))
            && (c.Skipped? ==> c.m == SkipFields(ev, m, remaining))
            && (c.Skipped? && c.m.sub != Error ==> Walk(ev, m.top.next, remaining) == Some(c.m.top.next))
  {
    CheckedIsSkip(ev, m, remaining);
    CheckedNeverWraps(ev, m, remaining);
    hide CanRead, CheckedFields, SkipFields, FitsByte, NeverWraps, Walk, NoneReserved, FailsOn;
    SkipIsWalk(ev, m, remaining);
  }

  // ---- the decoder's own traversal ----

  /** Where the members of a frame's struct are declared. */
  function MembersStart(ev: Event, f: Frame): nat
    requires ev.Valid() && TypeOffset(f) < ev.metaEnd
  {
    TypeEnd(ev, f) + (if SkipsCount(TypeOf(ev, f)) then 2 else 0)
  }

  /**
   * Where the decoder reads the members of an element: after the first, right after the type, which in a
   * constant-length array is where the count lies.
   */
  function ElementStart(ev: Event, f: Frame, index: nat): nat
    requires ev.Valid() && TypeOffset(f) < ev.metaEnd
  {
    if index == 0 then MembersStart(ev, f) else TypeEnd(ev, f)
  }

  /** Where it reads the members of the last element. */
  function LastStart(ev: Event, f: Frame): nat
    requires ev.Valid() && TypeOffset(f) < ev.metaEnd
  {
    ElementStart(ev, f, if f.count <= 1 then 0 else f.count - 1)
  }

  /** A constant-length array of struct with several elements, whose declaration ends at `next`. */
  predicate Rewinds(ev: Event, ft: FieldType, next: nat)
    requires SkipsCount(ft) ==> 2 <= next <= |ev.data|
  {
    WithoutFlags(ft.encoding) == ENCODING_STRUCT && SkipsCount(ft) && ev.U16(next - 2) > 1
  }

  /** Where `count` fields end for the decoder, which reads the members of a field's last element last. */
  function Traversal(ev: Event, pos: nat, count: nat): (r: Option<nat>)
    requires ev.Valid()
    ensures r.Some? ==> pos <= r.value <= ev.metaEnd
    decreases ev.metaEnd - pos, count
  {
    if pos > ev.metaEnd then None
    else if count == 0 || pos == ev.metaEnd then Some(pos)
    else
      match MetaField(ev, pos)
      case None => None
      case Some((ft, next)) =>
        match Traversal(ev, if Rewinds(ev, ft, next) then next - 2 else next, Members(ft))
        case None => None
        case Some(end) => Traversal(ev, end, count - 1)
  }

  /** After `first`, traverse `count` more fields. */
  function Then(ev: Event, first: Option<nat>, count: nat): Option<nat>
    requires ev.Valid()
  {
    match first
    case None => None
    case Some(pos) => Traversal(ev, pos, count)
  }

  /** No field that the walk meets is a constant-length array of struct with several elements. */
  predicate NoneRewinds(ev: Event, pos: nat, pending: nat)
    requires ev.Valid() && pos <= ev.metaEnd
    decreases ev.metaEnd - pos
  {
    if pending == 0 || pos == ev.metaEnd then true
    else
      match MetaField(ev, pos)
      case None => true
      case Some((ft, next)) => !Rewinds(ev, ft, next) && NoneRewinds(ev, next, pending - 1 + Members(ft))
  }

  lemma {:induction false} NoneRewindsSplits(ev: Event, pos: nat, first: nat, rest: nat)
    requires ev.Valid() && pos <= ev.metaEnd && NoneRewinds(ev, pos, first + rest)
    ensures NoneRewinds(ev, pos, first)
    ensures Walk(ev, pos, first).Some? ==> NoneRewinds(ev, Walk(ev, pos, first).value, rest)
    decreases ev.metaEnd - pos, first
  {
    hide MetaField, Rewinds;
    if first != 0 && pos != ev.metaEnd {
      match MetaField(ev, pos)
      case None =>
      case Some((ft, next)) =>
        NoneRewindsSplits(ev, next, Members(ft), first - 1 + rest);
        NoneRewindsSplits(ev, next, Members(ft) + (first - 1), rest);
        FlatSplits(ev, next, Members(ft), first - 1);
        FlatIsNested(ev, next, Members(ft) + (first - 1));
        if Walk(ev, next, Members(ft)).Some? {
          FlatIsNested(ev, Walk(ev, next, Members(ft)).value, first - 1);
        }
    }
  }

  /** Without such a field the decoder traverses what the nested walk walks. */
  lemma {:induction false} TraversalIsWalk(ev: Event, pos: nat, count: nat)
    requires ev.Valid() && pos <= ev.metaEnd && NoneRewinds(ev, pos, count)
    ensures Traversal(ev, pos, count) == Walk(ev, pos, count)
    decreases ev.metaEnd - pos, count
  {
    hide MetaField, Rewinds;
    if count != 0 && pos != ev.metaEnd {
      match MetaField(ev, pos)
      case None =>
      case Some((ft, next)) =>
        NoneRewindsSplits(ev, next, Members(ft), count - 1);
        TraversalIsWalk(ev, next, Members(ft));
        if Walk(ev, next, Members(ft)).Some? {
          TraversalIsWalk(ev, Walk(ev, next, Members(ft)).value, count - 1);
        }
    }
  }

  /** The current item's field is a struct whose members have not been passed for the last time. */
  predicate MembersAhead(m: Core) {
    WithoutFlags(m.ft.encoding) == ENCODING_STRUCT
    && match m.sub
       case ArrayBegin => true
       case StructBegin => true
       case StructEnd => m.top.index + 1 != m.top.count
       case ArrayEnd => m.top.count == 0
       case _ => false
  }

  /** Where the fields left in the top frame end, from the current item on. */
  function TopEnd(ev: Event, m: Core): Option<nat>
    requires Inv(ev, m)
  {
    if MembersAhead(m) then Then(ev, Traversal(ev, LastStart(ev, m.top), m.ft.format), m.top.remaining)
    else Traversal(ev, m.top.next, m.top.remaining)
  }

  /** Where the fields left in a frame on the stack end: its open struct's members, then the rest. */
  function FrameEnd(ev: Event, f: Frame): Option<nat>
    requires ev.Valid() && OpenFrame(ev, f)
  {
    Then(ev, Traversal(ev, LastStart(ev, f), TypeOf(ev, f).format), f.remaining)
  }

  /** Where the fields of the innermost open element, or of the event, end. */
  function InnerEnd(ev: Event, stack: seq<Frame>): Option<nat>
    requires ev.Valid() && StackOk(ev, stack)
  {
    if stack == [] then Traversal(ev, ev.metaStart + ev.nameLen + 1, TOP_LEVEL_FIELD_LIMIT)
    else
      var f := stack[|stack| - 1];
      assert OpenFrame(ev, f);
      Traversal(ev, f.next, TypeOf(ev, f).format)
  }

  /** Above the lowest `base` frames, the fields of every open element end where its parent's do. */
  ghost predicate StackWalks(ev: Event, stack: seq<Frame>, base: nat)
    requires ev.Valid() && StackOk(ev, stack)
  {
    |stack| <= base ||
    (var f := stack[|stack| - 1];
     var outer := stack[..|stack| - 1];
     && OpenFrame(ev, f)
     && StackOk(ev, outer)
     && StackWalks(ev, outer, base)
     && FrameEnd(ev, f) == InnerEnd(ev, outer))
  }

  /** The cursor is where the members of the current struct's last element end. */
  predicate PastMembers(ev: Event, m: Core)
    requires ev.Valid() && TypeOffset(m.top) < ev.metaEnd
  {
    Traversal(ev, LastStart(ev, m.top), m.ft.format) == Some(m.top.next)
  }

  /** Arrived at the end of the last, or only, element of a struct field. */
  predicate AtLastStructEnd(m: Core) {
    m.sub == StructEnd && m.top.index + 1 == m.top.count
  }

  /** The element whose members come next. */
  function NextIndex(m: Core): nat { if m.sub == StructEnd then m.top.index + 1 else m.top.index }

  /** An open frame's cursor is where the decoder reads its current element. */
  ghost predicate FrameAtElement(ev: Event, f: Frame)
    requires ev.Valid()
  {
    TypeOffset(f) < ev.metaEnd && f.next == ElementStart(ev, f, f.index)
  }

  /** So is every open frame's, and the top one's if members lie ahead. */
  ghost predicate AtElements(ev: Event, m: Core)
    requires Inv(ev, m)
  {
    && (forall i :: 0 <= i < |m.stack| ==> FrameAtElement(ev, m.stack[i]))
    && (IsItem(m.sub) && MembersAhead(m) ==> m.top.next == ElementStart(ev, m.top, NextIndex(m)))
  }

  /** Inside the open elements `bottom`, the decoder is where `Traversal` says. */
  ghost predicate OnWalk(ev: Event, m: Core, bottom: seq<Frame>)
    requires Inv(ev, m)
  {
    hide ReadType, NameEnd, StackOk, SubInv, MembersStart, Traversal;
    && bottom <= m.stack
    && StackWalks(ev, m.stack, |bottom|)
    && TopEnd(ev, m) == InnerEnd(ev, m.stack)
    && (AtLastStructEnd(m) ==> PastMembers(ev, m))
  }

  /**
   * The decoder has just left the innermost of these elements: after the last one of its field the cursor is
   * where its members end, and after any other it is put back.
   */
  ghost predicate LeftElement(ev: Event, m: Core, bottom: seq<Frame>)
    requires ev.Valid() && StackOk(ev, bottom)
  {
    && bottom != [] && m.sub == StructEnd
    && var f := bottom[|bottom| - 1];
       && OpenFrame(ev, f)
       && m.stack == bottom[..|bottom| - 1] && m.top == f.(next := m.top.next) && m.ft == TypeOf(ev, f)
       && InnerEnd(ev, bottom).Some?
       && m.top.next == if f.index + 1 == f.count then InnerEnd(ev, bottom).value else TypeEnd(ev, f)
  }

  /** An array without elements, whose skip ends elsewhere than its elements would. */
  ghost predicate Irregular(ev: Event, m: Core) {
    && Inv(ev, m)
    && m.sub == ArrayEnd && m.top.count == 0 && WithoutFlags(m.ft.encoding) == ENCODING_STRUCT
    && !(NeverWraps(ev, m.top.next, m.ft.format)
         && Traversal(ev, m.top.next, m.ft.format) == Walk(ev, m.top.next, m.ft.format))
  }

  /** The end of an element that is not the last sets the cursor back to where the next one is read. */
  lemma PopRewinds(ev: Event, n: Core)
    requires CanRead(ev, n) && |n.stack| != 0
    requires var f := n.stack[|n.stack| - 1]; f.index + 1 != f.count
    ensures var f := n.stack[|n.stack| - 1];
            var m := PopStruct(ev, n);
            && OpenFrame(ev, f)
            && m.top.next == ElementStart(ev, f, f.index + 1)
            && m.top.next + (if SkipsCount(m.ft) then 2 else 0) == MembersStart(ev, f)
  {
    hide ReadType;
  }

  lemma NextFieldOnWalk(ev: Event, n: Core)
    requires CanRead(ev, n) && n.top.remaining <= TOP_LEVEL_FIELD_LIMIT
    requires n.top.remaining != 0 && n.top.next != ev.metaEnd
    requires Inv(ev, NextField(ev, n)) && NextField(ev, n).sub != Error
    ensures var m' := NextField(ev, n);
            && m'.stack == n.stack && m'.top.index == 0 && m'.top.remaining == n.top.remaining - 1
            && (m'.sub == ValueScalar || m'.sub == ArrayBegin || m'.sub == StructBegin)
            && MetaField(ev, n.top.next) == Some((m'.ft, m'.top.next))
            && m'.top.next == MembersStart(ev, m'.top)
            && (SkipsCount(m'.ft) ==> m'.top.count == ev.U16(m'.top.next - 2))
  {
    hide NameEnd, StackOk, ReadType, FieldRead;
    var top0 := n.top.(remaining := n.top.remaining - 1, index := 0, name := n.top.next);
    ReadFieldOnField(ev, top0);
    var (ft, top1) := ReadField(ev, top0);
    FieldReadOnWalk(ev, n.(ft := ft, top := top1));
  }

  lemma FieldReadOnWalk(ev: Event, m: Core)
    requires ev.Valid() && m.pos <= |ev.data| && m.top.next <= ev.metaEnd
    requires FieldRead(ev, m).sub != Error
    ensures var m' := FieldRead(ev, m);
            && m'.stack == m.stack && m'.ft == m.ft
            && m'.top == m.top.(count := m'.top.count, next := m.top.next + (if SkipsCount(m.ft) then 2 else 0))
            && (SkipsCount(m.ft) ==> ev.metaEnd - m.top.next >= 2 && m'.top.count == ev.U16(m.top.next))
            && (m'.sub == ValueScalar || m'.sub == ArrayBegin || m'.sub == StructBegin)
  {
    hide NameEnd, ReadType, StartValue, StartArray;
    var scalar := m.(top := m.top.(count := 1), sub := ValueScalar);
    StartKeepsFrames(ev, scalar);
    if |ev.data| - m.pos >= 2 {
      StartKeepsFrames(ev, m.(top := m.top.(count := ev.U16(m.pos)), pos := m.pos + 2));
    }
    if ev.metaEnd - m.top.next >= 2 {
      StartKeepsFrames(ev, m.(top := m.top.(count := ev.U16(m.top.next), next := m.top.next + 2)));
    }
  }

  /** What returning from a struct does. */
  lemma PopShape(ev: Event, n: Core)
    requires CanRead(ev, n) && |n.stack| != 0
    ensures var f := n.stack[|n.stack| - 1];
            var m := PopStruct(ev, n);
            && OpenFrame(ev, f) && StackOk(ev, n.stack[..|n.stack| - 1])
            && m.sub == StructEnd && m.stack == n.stack[..|n.stack| - 1]
            && m.top == f.(next := m.top.next) && m.ft == TypeOf(ev, f)
            && m.top.next == if f.index + 1 == f.count then n.top.next else TypeEnd(ev, f)
  {
    hide ReadType, OnField;
  }

  // ---- where elements are read ----

  lemma NextPropertyAtElements(ev: Event, n: Core)
    requires CanRead(ev, n) && n.top.remaining <= TOP_LEVEL_FIELD_LIMIT
    requires forall i :: 0 <= i < |n.stack| ==> FrameAtElement(ev, n.stack[i])
    ensures var m' := NextProperty(ev, n);
            Inv(ev, m') && (m'.sub != Error ==> AtElements(ev, m'))
  {
    NextPropertyInv(ev, n);
    hide ReadType, NameEnd, StackOk, OnField, NextField, MetaField, MembersStart, Inv, PopStruct;
    if n.top.remaining != 0 && n.top.next != ev.metaEnd {
      if NextField(ev, n).sub != Error {
        NextFieldOnWalk(ev, n);
      }
    } else if |n.stack| != 0 {
      PopShape(ev, n);
    }
  }

  lemma PushAtElements(ev: Event, m: Core)
    requires Inv(ev, m) && m.sub == StructBegin && |m.stack| < STRUCT_NEST_LIMIT && AtElements(ev, m)
    ensures CanRead(ev, PushStruct(m)) && PushStruct(m).top.remaining <= TOP_LEVEL_FIELD_LIMIT
    ensures forall i :: 0 <= i < |PushStruct(m).stack| ==> FrameAtElement(ev, PushStruct(m).stack[i])
  {
    EnterMoves(ev, m);
    hide CanRead, ReadType, StackOk, MembersStart;
  }

  lemma WithinArrayAtElements(ev: Event, m: Core)
    requires WithinArray(m)
    requires Inv(ev, m) && Inv(ev, Step(ev, m)) && AtElements(ev, m)
    ensures Step(ev, m).sub != Error ==> AtElements(ev, Step(ev, m))
  {
    hide ReadType, NameEnd, StackOk, OnField, StartValue, NextProperty, SkipFields, MembersStart;
    StartKeepsFrames(ev, m.(sub := ValueComplexArrayElement));
    if m.sub == ValueComplexArrayElement {
      StartKeepsFrames(ev, NextElement(m));
    }
  }

  /** The move stays in the array of the current item. */
  predicate WithinArray(m: Core) {
    match m.sub
    case ValueSimpleArrayElement => true
    case ValueComplexArrayElement => true
    case ArrayBegin => true
    case StructEnd => m.top.index + 1 != m.top.count || IsArray(m.ft.encoding)
    case _ => false
  }

  /** The state in which the next field is looked for, if the move does not stay in an array. */
  function Advanced(ev: Event, m: Core): Core
    requires Inv(ev, m)
  {
    match m.sub
    case ValueScalar => m.(pos := m.pos + m.rawSize)
    case ArrayEnd =>
      if WithoutFlags(m.ft.encoding) == ENCODING_STRUCT && m.top.count == 0 then SkipStructMetadata(ev, m) else m
    case StructBegin => PushStruct(m)
    case StructEnd => m.(top := m.top.(index := m.top.index + 1))
    case _ => m
  }

  lemma AdvancedMoves(ev: Event, m: Core)
    requires Inv(ev, m) && CanMoveNext(m.sub) && !WithinArray(m)
    ensures var n := Advanced(ev, m);
            var stops := n.sub == Error || (m.sub == StructBegin && |m.stack| >= STRUCT_NEST_LIMIT);
            && (stops ==> Step(ev, m).sub == Error)
            && (!stops ==>
                  && CanRead(ev, n) && n.top.remaining <= TOP_LEVEL_FIELD_LIMIT
                  && Step(ev, m) == NextProperty(ev, n))
  {
    hide ReadType, NameEnd, NextProperty, SkipFields, MembersStart;
    match m.sub
    case StructBegin => EnterMoves(ev, m);
    case _ => hide OnField, StackOk;
  }

  lemma StepAtElements(ev: Event, m: Core)
    requires Inv(ev, m) && CanMoveNext(m.sub) && AtElements(ev, m)
    ensures Inv(ev, Step(ev, m)) && (Step(ev, m).sub != Error ==> AtElements(ev, Step(ev, m)))
  {
    StepInv(ev, m);
    if WithinArray(m) {
      WithinArrayAtElements(ev, m);
    } else {
      AdvancedMoves(ev, m);
      hide Inv, Step, CanRead, NextProperty, FrameAtElement, SkipFields;
      if Step(ev, m).sub != Error {
        if m.sub == StructBegin {
          PushAtElements(ev, m);
        }
        NextPropertyAtElements(ev, Advanced(ev, m));
      }
    }
  }

  lemma {:induction false} RunAtElements(ev: Event, run: seq<Core>)
    requires IsRun(ev, run)
    ensures Last(run).sub != Error ==> AtElements(ev, Last(run))
    decreases |run|
  {
    hide Step;
    if |run| > 1 {
      hide Inv, AtElements;
      RunAtElements(ev, run[..|run| - 1]);
      StepAtElements(ev, Last(run[..|run| - 1]));
    }
  }

  // ---- where elements end ----

  lemma FieldOnWalk(ev: Event, n: Core, m': Core, bottom: seq<Frame>)
    requires CanRead(ev, n) && n.top.remaining != 0 && n.top.next != ev.metaEnd
    requires bottom <= n.stack && StackWalks(ev, n.stack, |bottom|)
    requires Traversal(ev, n.top.next, n.top.remaining) == InnerEnd(ev, n.stack)
    requires Inv(ev, m') && m'.stack == n.stack && m'.top.remaining == n.top.remaining - 1
    requires m'.sub == ValueScalar || m'.sub == ArrayBegin || m'.sub == StructBegin
    requires MetaField(ev, n.top.next) == Some((m'.ft, m'.top.next))
    requires m'.top.next == MembersStart(ev, m'.top)
    requires SkipsCount(m'.ft) ==> m'.top.count == ev.U16(m'.top.next - 2)
    ensures OnWalk(ev, m', bottom)
  {
    hide ReadType, NameEnd, StackOk, OnField, MetaField, StackWalks, InnerEnd;
    var ft, next := m'.ft, m'.top.next;
    var start := if Rewinds(ev, ft, next) then next - 2 else next;
    assert Traversal(ev, n.top.next, n.top.remaining)
        == Then(ev, Traversal(ev, start, Members(ft)), m'.top.remaining);
    assert WithoutFlags(ft.encoding) == ENCODING_STRUCT ==> LastStart(ev, m'.top) == start;
  }

  /** Where a field's elements are read does not depend on the cursor. */
  lemma StartsSame(ev: Event, f: Frame, g: Frame)
    requires ev.Valid() && TypeOffset(f) == TypeOffset(g) < ev.metaEnd && f.count == g.count
    ensures TypeOf(ev, f) == TypeOf(ev, g) && TypeEnd(ev, f) == TypeEnd(ev, g)
    ensures MembersStart(ev, f) == MembersStart(ev, g) && LastStart(ev, f) == LastStart(ev, g)
  {
    hide ReadType;
  }

  /** The cursor at the last element is where the last element is read. */
  lemma LastIsLast(ev: Event, f: Frame)
    requires ev.Valid() && FrameAtElement(ev, f) && f.index + 1 == f.count
    ensures f.next == LastStart(ev, f)
  {
    hide MembersStart, TypeEnd;
  }

  lemma InnerIsPassed(ev: Event, n: Core)
    requires CanRead(ev, n) && |n.stack| != 0 && (n.top.remaining == 0 || n.top.next == ev.metaEnd)
    requires Traversal(ev, n.top.next, n.top.remaining) == InnerEnd(ev, n.stack)
    ensures InnerEnd(ev, n.stack) == Some(n.top.next)
  {
    hide ReadType, NameEnd, StackOk, OnField, InnerEnd, MetaField;
  }

  lemma PopLeaves(ev: Event, n: Core)
    requires CanRead(ev, n) && |n.stack| != 0
    requires InnerEnd(ev, n.stack) == Some(n.top.next)
    ensures LeftElement(ev, PopStruct(ev, n), n.stack)
  {
    PopShape(ev, n);
    hide ReadType, NameEnd, StackOk, OnField, PopStruct, InnerEnd, OpenFrame, TypeEnd;
  }

  lemma PopOnWalk(ev: Event, n: Core, bottom: seq<Frame>)
    requires CanRead(ev, n) && bottom < n.stack && StackWalks(ev, n.stack, |bottom|)
    requires FrameAtElement(ev, n.stack[|n.stack| - 1])
    requires Inv(ev, PopStruct(ev, n)) && InnerEnd(ev, n.stack) == Some(n.top.next)
    ensures OnWalk(ev, PopStruct(ev, n), bottom)
  {
    PopShape(ev, n);
    var f := n.stack[|n.stack| - 1];
    var m := PopStruct(ev, n);
    StartsSame(ev, f, m.top);
    hide ReadType, NameEnd, StackOk, OnField, PopStruct, Traversal, Inv, LastStart, TypeEnd, TypeOf, CanRead;
    if f.index + 1 == f.count {
      LastIsLast(ev, f);
    }
    assert bottom <= n.stack[..|n.stack| - 1];
  }

  lemma NextPropertyOnWalk(ev: Event, n: Core, bottom: seq<Frame>)
    requires CanRead(ev, n) && n.top.remaining <= TOP_LEVEL_FIELD_LIMIT
    requires bottom <= n.stack && StackOk(ev, bottom) && StackWalks(ev, n.stack, |bottom|)
    requires forall i :: 0 <= i < |n.stack| ==> FrameAtElement(ev, n.stack[i])
    requires Traversal(ev, n.top.next, n.top.remaining) == InnerEnd(ev, n.stack)
    ensures var m' := NextProperty(ev, n);
            && Inv(ev, m')
            && (IsItem(m'.sub) ==> OnWalk(ev, m', bottom) || LeftElement(ev, m', bottom))
  {
    hide Inv, CanRead, StackOk, NextField, PopStruct, MetaField, MembersStart, StackWalks, InnerEnd, LeftElement,
      OnWalk, Traversal, FrameAtElement;
    var m' := NextProperty(ev, n);
    NextPropertyInv(ev, n);
    if n.top.remaining != 0 && n.top.next != ev.metaEnd {
      if m'.sub != Error {
        NextFieldOnWalk(ev, n);
        FieldOnWalk(ev, n, m', bottom);
      }
    } else if |n.stack| != 0 {
      InnerIsPassed(ev, n);
      if n.stack == bottom {
        PopLeaves(ev, n);
      } else {
        PopOnWalk(ev, n, bottom);
      }
    }
  }

  /** The frame pushed is open, and its fields end where they should. */
  lemma PushOnWalk(ev: Event, m: Core, bottom: seq<Frame>)
    requires Inv(ev, m) && m.sub == StructBegin && |m.stack| < STRUCT_NEST_LIMIT && OnWalk(ev, m, bottom)
    ensures CanRead(ev, PushStruct(m)) && StackWalks(ev, PushStruct(m).stack, |bottom|)
    ensures Traversal(ev, PushStruct(m).top.next, PushStruct(m).top.remaining) == InnerEnd(ev, PushStruct(m).stack)
  {
    EnterMoves(ev, m);
    TopIsOpen(ev, m);
    hide ReadType, NameEnd, OnField, Traversal, MembersStart, ElementStart, LastStart, OpenFrame, Inv, CanRead, StackOk;
    assert PushStruct(m).stack[..|m.stack|] == m.stack;
  }

  lemma TopIsOpen(ev: Event, m: Core)
    requires Inv(ev, m) && m.sub == StructBegin
    ensures OpenFrame(ev, m.top) && m.ft == TypeOf(ev, m.top) && StackOk(ev, m.stack)
  {
    hide ReadType, StackOk;
  }

  lemma WithinArrayOnWalk(ev: Event, m: Core, bottom: seq<Frame>)
    requires WithinArray(m)
    requires Inv(ev, m) && Inv(ev, Step(ev, m)) && OnWalk(ev, m, bottom)
    ensures Step(ev, m).sub != Error ==> OnWalk(ev, Step(ev, m), bottom)
  {
    hide ReadType, NameEnd, StackOk, OnField, StartValue, NextProperty, SkipFields, StackWalks, Traversal;
    StartKeepsFrames(ev, m.(sub := ValueComplexArrayElement));
    if m.sub == ValueComplexArrayElement {
      StartKeepsFrames(ev, NextElement(m));
    }
  }

  lemma EmptyOnWalk(ev: Event, m: Core, bottom: seq<Frame>)
    requires Inv(ev, m) && OnWalk(ev, m, bottom) && AtElements(ev, m) && !Irregular(ev, m)
    requires m.sub == ArrayEnd && WithoutFlags(m.ft.encoding) == ENCODING_STRUCT && m.top.count == 0
    ensures TopEnd(ev, m) == Then(ev, Walk(ev, m.top.next, m.ft.format), m.top.remaining)
    ensures NeverWraps(ev, m.top.next, m.ft.format)
  {
    hide ReadType, NameEnd, StackOk, OnField, MembersStart, NeverWraps, Traversal, Walk, StackWalks, InnerEnd;
  }

  lemma SkippedOnWalk(ev: Event, m: Core, bottom: seq<Frame>)
    requires Inv(ev, m) && OnWalk(ev, m, bottom) && AtElements(ev, m) && !Irregular(ev, m)
    requires m.sub == ArrayEnd && WithoutFlags(m.ft.encoding) == ENCODING_STRUCT && m.top.count == 0
    requires SkipStructMetadata(ev, m).sub != Error
    ensures var n := SkipStructMetadata(ev, m);
            n.stack == m.stack && Traversal(ev, n.top.next, n.top.remaining) == InnerEnd(ev, m.stack)
  {
    EmptyOnWalk(ev, m, bottom);
    hide Inv, AtElements, Irregular, CanRead, SkipFields, NeverWraps, Traversal, Walk, StackWalks, InnerEnd,
      NoneReserved, FailsOn, TopEnd;
    SkipIsWalk(ev, m, m.ft.format);
  }

  /** Looking for the next field, the decoder is still where `Traversal` says. */
  lemma AdvancedOnWalk(ev: Event, m: Core, bottom: seq<Frame>)
    requires Inv(ev, m) && CanMoveNext(m.sub) && !WithinArray(m) && OnWalk(ev, m, bottom)
    requires AtElements(ev, m) && !Irregular(ev, m) && Step(ev, m).sub != Error
    ensures var n := Advanced(ev, m);
            && CanRead(ev, n) && bottom <= n.stack && StackWalks(ev, n.stack, |bottom|)
            && Traversal(ev, n.top.next, n.top.remaining) == InnerEnd(ev, n.stack)
  {
    AdvancedMoves(ev, m);
    hide ReadType, NameEnd, StackOk, OnField, NextProperty, MembersStart, NeverWraps, SubInv, Step, Traversal, InnerEnd,
      StackWalks, CanRead, SkipFields;
    if m.sub == StructBegin {
      PushOnWalk(ev, m, bottom);
    } else if m.sub == ArrayEnd && WithoutFlags(m.ft.encoding) == ENCODING_STRUCT && m.top.count == 0 {
      SkippedOnWalk(ev, m, bottom);
    }
  }

  /** A move from a regular state on the walk stays on the walk, or leaves the innermost of the elements. */
  lemma StepOnWalk(ev: Event, m: Core, bottom: seq<Frame>)
    requires Inv(ev, m) && CanMoveNext(m.sub) && OnWalk(ev, m, bottom) && AtElements(ev, m) && !Irregular(ev, m)
    requires StackOk(ev, bottom)
    ensures var m' := Step(ev, m);
            && Inv(ev, m')
            && (IsItem(m'.sub) ==> OnWalk(ev, m', bottom) || LeftElement(ev, m', bottom))
  {
    StepInv(ev, m);
    if WithinArray(m) {
      hide LeftElement;
      WithinArrayOnWalk(ev, m, bottom);
    } else if Step(ev, m).sub != Error {
      AdvancedMoves(ev, m);
      AdvancedOnWalk(ev, m, bottom);
      hide Inv, Step, CanRead, NextProperty, FrameAtElement, SkipFields, OnWalk, LeftElement, Traversal, InnerEnd,
        StackWalks, StackOk;
      if m.sub == StructBegin {
        PushAtElements(ev, m);
      }
      NextPropertyOnWalk(ev, Advanced(ev, m), bottom);
    }
  }

  /** From the begin of an element, the states after it lie inside the element, and none is irregular. */
  ghost predicate Inside(ev: Event, run: seq<Core>, begin: nat, end: nat)
    requires begin < end <= |run|
  {
    forall k :: begin < k < end ==> |run[k].stack| > |run[begin].stack| && !Irregular(ev, run[k])
  }

  function Opened(m: Core): seq<Frame> { m.stack + [m.top] }

  /** The move into an element. */
  lemma EnterOnWalk(ev: Event, m: Core)
    requires Inv(ev, m) && m.sub == StructBegin && AtElements(ev, m) && |m.stack| < STRUCT_NEST_LIMIT
    ensures ev.Valid() && StackOk(ev, Opened(m))
    ensures var m' := Step(ev, m);
            && Inv(ev, m')
            && (IsItem(m'.sub) ==> OnWalk(ev, m', Opened(m)) || LeftElement(ev, m', Opened(m)))
  {
    EnterMoves(ev, m);
    TopIsOpen(ev, m);
    PushAtElements(ev, m);
    hide Inv, ReadType, NextProperty, OnField, Traversal, OnWalk, LeftElement, FrameAtElement;
    NextPropertyOnWalk(ev, PushStruct(m), Opened(m));
  }

  lemma InsideIsItem(ev: Event, m: Core)
    requires Inv(ev, m) && CanMoveNext(m.sub) && m.stack != []
    ensures IsItem(m.sub)
  {
    hide CanRead, SubInv, OnField;
  }

  lemma {:induction false} RunOnWalk(ev: Event, run: seq<Core>, begin: nat)
    requires IsRun(ev, run) && begin + 1 < |run| && run[begin].sub == StructBegin && IsItem(Last(run).sub)
    requires Inside(ev, run, begin, |run| - 1)
    ensures ev.Valid() && StackOk(ev, Opened(run[begin]))
    ensures OnWalk(ev, Last(run), Opened(run[begin])) || LeftElement(ev, Last(run), Opened(run[begin]))
    decreases |run|
  {
    hide Inv, Step, Irregular, OnWalk, StackOk;
    var before := run[..|run| - 1];
    RunAtElements(ev, before);
    hide AtElements;
    if |run| == begin + 2 {
      DepthAllows(ev, run[begin]);
      EnterOnWalk(ev, run[begin]);
    } else {
      assert Inside(ev, before, begin, |before| - 1);
      InsideIsItem(ev, Last(before));
      RunOnWalk(ev, before, begin);
      StepOnWalk(ev, Last(before), Opened(run[begin]));
    }
  }

  lemma DepthAllows(ev: Event, m: Core)
    requires Inv(ev, m) && m.sub == StructBegin && Step(ev, m).sub != Error
    ensures |m.stack| < STRUCT_NEST_LIMIT
  {
    hide CanRead, SubInv, NextProperty;
  }

  /**
   * Whatever came before: at the end of an element that is its struct's last the cursor is where the members
   * end for the decoder. Where the nested walk of the members ends there too, the skip stops there exactly if
   * its counter does not wrap; and a skip whose counter does not wrap stops there exactly if the nested walk
   * ends there.
   */
  lemma TraversalEndsWhereSkipStops(ev: Event, run: seq<Core>, begin: nat, skip: Core)
    requires IsRun(ev, run) && begin + 1 < |run| && run[begin].sub == StructBegin
    requires Inside(ev, run, begin, |run| - 1)
    requires AtLastStructEnd(Last(run)) && |Last(run).stack| == |run[begin].stack|
    requires CanRead(ev, skip) && skip.sub != Error
    requires skip.top.next == MembersStart(ev, Last(run).top)
    ensures var m := Last(run);
            var end := Traversal(ev, LastStart(ev, m.top), m.ft.format);
            var same := Walk(ev, skip.top.next, m.ft.format) == end;
            var fits := NeverWraps(ev, skip.top.next, m.ft.format);
            var r := SkipFields(ev, skip, m.ft.format);
            && end == Some(m.top.next)
            && (r.sub != Error && same ==> (r.top.next == m.top.next <==> fits))
            && (r.sub != Error && fits ==> (r.top.next == m.top.next <==> same))
            && (NoneRewinds(ev, skip.top.next, m.ft.format) && !Rewound(ev, m.top) ==> same)
  {
    var m := Last(run);
    ElementEnds(ev, run, begin);
    hide IsRun, CanRead, Inv, MembersStart, ReadType, SkipFields, Traversal, Walk, NeverWraps,
      NoneReserved, NoneRewinds, FailsOn;
    SkipIsWalk(ev, skip, m.ft.format);
    if NoneRewinds(ev, skip.top.next, m.ft.format) {
      TraversalIsWalk(ev, skip.top.next, m.ft.format);
    }
  }

  lemma {:induction false} RunPrefix(ev: Event, run: seq<Core>, n: nat)
    requires IsRun(ev, run) && 0 < n <= |run|
    ensures IsRun(ev, run[..n])
    decreases |run|
  {
    hide Inv, Step;
    if n == |run| {
      assert run[..n] == run;
    } else {
      RunPrefix(ev, run[..|run| - 1], n);
      assert run[..|run| - 1][..n] == run[..n];
    }
  }

  lemma ElementEnds(ev: Event, run: seq<Core>, begin: nat)
    requires IsRun(ev, run) && begin + 1 < |run| && run[begin].sub == StructBegin
    requires Inside(ev, run, begin, |run| - 1)
    requires AtLastStructEnd(Last(run)) && |Last(run).stack| == |run[begin].stack|
    ensures var m := Last(run);
            && Traversal(ev, LastStart(ev, m.top), m.ft.format) == Some(m.top.next) && m.ft == TypeOf(ev, m.top)
            && (!Rewound(ev, m.top) ==> LastStart(ev, m.top) == MembersStart(ev, m.top))
  {
    hide Inv, Step, Irregular, Inside;
    RunOnWalk(ev, run, begin);
    RunPrefix(ev, run, begin + 1);
    RunAtElements(ev, run[..begin + 1]);
    assert Last(run[..begin + 1]) == run[begin];
    hide IsRun;
    var m := Last(run);
    NotInside(ev, m, run[begin]);
    LeftEnds(ev, m, run[begin]);
  }

  lemma NotInside(ev: Event, m: Core, b: Core)
    requires Inv(ev, m) && |m.stack| == |b.stack|
    ensures !OnWalk(ev, m, Opened(b))
  {
    hide Inv;
  }

  lemma LeftEnds(ev: Event, m: Core, b: Core)
    requires Inv(ev, b) && b.sub == StructBegin && AtElements(ev, b) && StackOk(ev, Opened(b))
    requires LeftElement(ev, m, Opened(b)) && AtLastStructEnd(m)
    ensures Traversal(ev, LastStart(ev, m.top), m.ft.format) == Some(m.top.next) && m.ft == TypeOf(ev, m.top)
    ensures !Rewound(ev, m.top) ==> LastStart(ev, m.top) == MembersStart(ev, m.top)
  {
    TopIsOpen(ev, b);
    BeginAtElement(ev, b);
    hide Inv, CanRead, ReadType, Traversal, OnField, StackOk, AtElements;
    LastIsLast(ev, b.top);
    StartsSame(ev, m.top, b.top);
    hide MembersStart, TypeEnd, FrameAtElement;
    assert Opened(b)[|Opened(b)| - 1] == b.top;
    if !Rewound(ev, m.top) {
      LastNotRewound(ev, m.top);
    }
  }

  lemma BeginAtElement(ev: Event, b: Core)
    requires Inv(ev, b) && b.sub == StructBegin && AtElements(ev, b)
    ensures FrameAtElement(ev, b.top)
  {
    hide CanRead, ReadType, MembersStart;
  }

  lemma LastNotRewound(ev: Event, f: Frame)
    requires ev.Valid() && TypeOffset(f) < ev.metaEnd && !Rewound(ev, f)
    ensures LastStart(ev, f) == MembersStart(ev, f)
  {
    hide ReadType;
  }

  /** The last element of the frame's field is read from before the count of a constant-length array. */
  predicate Rewound(ev: Event, f: Frame)
    requires ev.Valid() && TypeOffset(f) < ev.metaEnd
  {
    f.count > 1 && SkipsCount(TypeOf(ev, f))
  }
}

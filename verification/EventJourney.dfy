/**
 * The whole way of an event through the classes: an `EventBuilder` is reset, filled and written,
 * what it sent is opened by an `EventHeaderEnumeratorContext`, and `move_next` is called until it
 * returns false. Whatever state both objects were in before, the consumer gets the fields that the
 * producer added.
 */
module EventJourney {
  import opened Bytes
  import opened EnumeratorModel
  import opened EnumeratorBudget
  import opened EventFraming
  import opened EventOpening
  import opened EventEncoding
  import opened EventDecoding
  import opened EventRoundTrip
  import opened Wrappers
  import B = EventBuilder
  import E = Enumerator
  import TracepointName

  /** What a producer gives besides the fields. */
  datatype Sending = Sending(
    provider: bytes,
    group: bytes,
    level: byte,
    keyword: u64,
    name: bytes,
    tag: u16,
    id: u16,
    version: byte,
    opcode: byte,
    activityId: Option<bytes>,
    relatedId: Option<bytes>)
  {
    ghost predicate Ok() {
      && TracepointName.ProviderOk(provider, group)
      && NoZero(name)
      && (relatedId.None? || activityId.Some?)
      && (activityId.Some? ==> |activityId.value| == ID_SIZE)
      && (relatedId.Some? ==> |relatedId.value| == ID_SIZE)
    }

    function Activity(): bytes {
      ActivitySection(activityId, relatedId)
    }

    function Header(bigEndian: bool, pointer64: bool): EventHeader {
      EventHeader(DefaultWithExtension(bigEndian, pointer64), version, id, tag, opcode, level)
    }

    /** The name its tracepoint is registered under. */
    function RegisteredName(): bytes {
      TracepointName.NameFor(provider, TracepointName.OptionsFor(group), level, keyword)
    }
  }

  datatype Outcome = NotSent(code: int) | NotOpened(error: EnumeratorError) | Received(event: bytes, items: seq<Item>)

  /** What `write` compares with its limit. */
  function PayloadSize(bigEndian: bool, s: Sending, fs: seq<Field>): nat
    requires FieldsOk(fs)
  {
    |s.name + [0] + MetaAll(bigEndian, fs)| + |DataAll(bigEndian, fs)|
  }

  // ---- the producer ----

  method Send(builder: B.EventBuilder, s: Sending, fs: seq<Field>, writeIndex: bytes) returns (r: B.WriteResult)
    requires s.Ok() && FieldsOk(fs) && |writeIndex| == WRITE_INDEX_SIZE
    modifies builder
    ensures PayloadSize(builder.bigEndian, s, fs) > PAYLOAD_MAX ==> r == B.Errno(B.ERANGE)
    ensures PayloadSize(builder.bigEndian, s, fs) <= PAYLOAD_MAX ==>
              r == B.Sent(writeIndex
                          + Framed(builder.bigEndian, s.Header(builder.bigEndian, builder.pointer64), s.Activity(),
                                   s.name, MetaAll(builder.bigEndian, fs), DataAll(builder.bigEndian, fs)).data)
  {
    hide MetaAll, DataAll, FieldsOk, EventBytes, DefaultWithExtension, NoZero, TracepointName.ProviderOk;
    builder.Reset(s.name, s.tag);
    builder.IdVersion(s.id, s.version);
    builder.Opcode(s.opcode);
    builder.AddFields(fs);
    assert builder.data == DataAll(builder.bigEndian, fs);
    r := builder.Write(writeIndex, s.level, s.activityId, s.relatedId);
  }

  // ---- the consumer ----

  /** `item_info`, at the current item. */
  method ItemInfo(context: E.EventHeaderEnumeratorContext, data: bytes) returns (item: Item)
    requires context.Valid(data) && IsItem(context.substate)
    ensures item == Observed(context.Ev(data), context.View())
  {
    hide StackOk, E.EventHeaderEnumeratorContext.Frames;
    var name: nat, value: nat := context.stackTop.name, context.dataPosCooked;
    var atArray := context.substate == ArrayBegin || context.substate == ArrayEnd;
    item := Item(
      context.state,
      data[name..name + context.stackTop.nameLen],
      context.fieldType.encoding,
      context.fieldType.format,
      context.fieldType.tag,
      if atArray then context.stackTop.count else 1,
      context.elementSize,
      data[value..value + context.itemSizeCooked]);
  }

  /** One call of `move_next` in a drain. */
  lemma DrainStep(ev: Event, m: Core, budget: nat)
    requires Inv(ev, m) && CanMoveNext(m.sub)
    ensures var (m', budget') := MoveNext(ev, m, budget);
            && Inv(ev, m')
            && Drain(ev, m, budget)
               == if IsItem(m'.sub) then
                    var (items, last) := Drain(ev, m', budget');
                    ([Observed(ev, m')] + items, last)
                  else ([], m')
  {
    hide Inv, Step, Observed;
    StepInv(ev, m);
    LimitInv(ev, m);
  }

  lemma AppendOne<T>(before: seq<T>, x: T, rest: seq<T>)
    ensures before + ([x] + rest) == before + [x] + rest
  {
  }

  /** `move_next` until it returns false: the items it moved to, and the state in which it stops. */
  method ReadItems(context: E.EventHeaderEnumeratorContext, data: bytes) returns (items: seq<Item>)
    requires context.Valid(data) && CanMoveNext(context.substate)
    modifies context, context.stack
    ensures context.Valid(data) && context.Ev(data) == old(context.Ev(data))
    ensures context.header == old(context.header) && context.keyword == old(context.keyword)
    ensures context.activityIdStart == old(context.activityIdStart)
    ensures context.activityIdLen == old(context.activityIdLen)
    ensures Drain(context.Ev(data), old(context.View()), old(context.moveNextRemaining)) == (items, context.View())
  {
    hide Inv, Step, Observed, Drain, E.EventHeaderEnumeratorContext.Frames, StateOf;
    ghost var ev := context.Ev(data);
    ghost var all := Drain(ev, context.View(), context.moveNextRemaining);
    assert [] + all.0 == all.0;
    items := [];
    while true
      invariant context.Valid(data) && CanMoveNext(context.substate) && context.Ev(data) == ev
      invariant context.header == old(context.header) && context.keyword == old(context.keyword)
      invariant context.activityIdStart == old(context.activityIdStart)
      invariant context.activityIdLen == old(context.activityIdLen)
      invariant var rest := Drain(ev, context.View(), context.moveNextRemaining);
                all == (items + rest.0, rest.1)
      decreases context.moveNextRemaining
    {
      DrainStep(ev, context.View(), context.moveNextRemaining);
      var moved := context.MoveNextImpl(data);
      if !moved {
        assert items + [] == items;
        return;
      }
      var item := ItemInfo(context, data);
      AppendOne(items, item, Drain(ev, context.View(), context.moveNextRemaining).0);
      items := items + [item];
    }
  }

  /** With a smaller budget the same items are seen, up to where it runs out. */
  lemma {:induction false} DrainCut(ev: Event, m: Core, enough: nat, budget: nat)
    requires Inv(ev, m) && CanMoveNext(m.sub)
    requires |Drain(ev, m, enough).0| < enough
    ensures var (items, last) := Drain(ev, m, enough);
            var cut := Drain(ev, m, budget);
            if budget > |items| then cut == (items, last)
            else cut.0 == items[..budget] && cut.1.sub == Error && cut.1.err == ImplementationLimit
    decreases budget
  {
    hide Inv, Step, Observed;
    StepInv(ev, m);
    if budget > 0 && IsItem(Step(ev, m).sub) {
      DrainCut(ev, Step(ev, m), enough - 1, budget - 1);
    }
  }

  /** Where enumeration ends when its own limit on calls does not end it. */
  ghost predicate EndsAsFieldsSay(fs: seq<Field>, items: seq<Item>, sub: SubState, err: EnumeratorError)
    requires FieldsOk(Reached(fs))
  {
    if Readable(fs) then sub == AfterLastItem && items == ItemsAll(Reached(fs))
    else if DepthAll(Reached(fs)) <= STRUCT_NEST_LIMIT then
      sub == Error && err == EnumeratorError.NotSupported && items == ItemsAll(Reached(fs))
    else
      && sub == Error && err == EnumeratorError.StackOverflow
      && items <= ItemsAll(Reached(fs)) && OverflowsAtEnd(items, STRUCT_NEST_LIMIT)
  }

  /** What `ReadsBack` says, and what a smaller budget leaves of it. */
  lemma ReadsBackWithin(ev: Event, m: Core, fs: seq<Field>, budget: nat)
    requires Holds(ev, fs)
    ensures Inv(ev, EnumeratorModel.Reset(ev, m)) && FieldsOk(fs) && FieldsOk(Reached(fs))
    ensures var (items, last) := Drain(ev, EnumeratorModel.Reset(ev, m), budget);
            && (budget > |ItemsAll(fs)| ==> EndsAsFieldsSay(fs, items, last.sub, last.err))
            && (budget <= |ItemsAll(fs)| ==>
                  && items <= ItemsAll(Reached(fs)) && |items| <= budget && last.sub == Error
                  && (Readable(fs) ==> |items| == budget && last.err == ImplementationLimit))
  {
    hide Inv, Step, MetaAll, DataAll, ItemsAll, DepthAll, FieldsOk, Drain, Holds, OverflowsAtEnd;
    FieldsReached(ev, fs);
    assert Reached(fs) == fs[..|Reached(fs)|];
    ItemsSplit(fs, |Reached(fs)|);
    var enough := |ItemsAll(fs)| + 1;
    ReadsBack(ev, m, fs, enough);
    DrainCut(ev, EnumeratorModel.Reset(ev, m), enough, budget);
  }

  /**
   * The journey. An event is not sent exactly when it is too large. What is sent is always opened,
   * under its name and with its header, keyword and activity. The items seen are the fields' own,
   * each once and in order, up to the first of the decoder's limits: calls of `move_next`, structs
   * inside each other, top-level fields.
   */
  method SendAndRead(builder: B.EventBuilder, context: E.EventHeaderEnumeratorContext, s: Sending, fs: seq<Field>,
                     writeIndex: bytes, limit: E.u32) returns (r: Outcome)
    requires context.Shape()
    requires s.Ok() && FieldsOk(fs) && |writeIndex| == WRITE_INDEX_SIZE
    modifies builder, context, context.stack
    ensures r.NotSent? <==> PayloadSize(builder.bigEndian, s, fs) > PAYLOAD_MAX
    ensures r.NotSent? ==> r.code == B.ERANGE
    ensures !r.NotOpened?
    ensures r.Received? ==>
              && context.Valid(r.event) && FieldsOk(Reached(fs))
              && context.header == s.Header(builder.bigEndian, builder.pointer64) && context.keyword == s.keyword
              && At(r.event, context.activityIdStart, s.Activity()) && context.activityIdLen == |s.Activity()|
              && At(r.event, context.metaStart, s.name) && context.eventNameLen == |s.name|
    ensures r.Received? && limit > |ItemsAll(fs)| ==>
              EndsAsFieldsSay(fs, r.items, context.substate, context.lastError)
    ensures r.Received? && limit <= |ItemsAll(fs)| ==>
              && r.items <= ItemsAll(Reached(fs)) && |r.items| <= limit && context.substate == Error
              && (Readable(fs) ==> |r.items| == limit && context.lastError == ImplementationLimit)
  {
    hide MetaAll, DataAll, ItemsAll, FieldsOk, EventBytes, DefaultWithExtension, NoZero, Open, At, Inv, Drain, Holds,
        EndsAsFieldsSay, E.EventHeaderEnumeratorContext.Frames, TracepointName.ProviderOk;
    var sent := Send(builder, s, fs, writeIndex);
    if sent.Errno? {
      return NotSent(sent.code);
    }
    var data := sent.bytes[WRITE_INDEX_SIZE..];
    ghost var h := s.Header(builder.bigEndian, builder.pointer64);
    ghost var ev := Framed(builder.bigEndian, h, s.Activity(), s.name, MetaAll(builder.bigEndian, fs),
                           DataAll(builder.bigEndian, fs));
    CodecRoundTrip(builder.bigEndian, builder.pointer64, h, s.Activity(), s.name, fs, s.provider, s.group, s.keyword);
    assert data == ev.data;
    ReadsBackWithin(ev, context.View(), fs, limit);
    var error := context.Enumerate(s.RegisteredName(), data, limit);
    if error != Success {
      return NotOpened(error);
    }
    ghost var before := context.View();
    var items := ReadItems(context, data);
    r := Received(data, items);
  }
}

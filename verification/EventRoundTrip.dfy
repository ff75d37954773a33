/**
 * The codec round trip: what a builder sends, framed and named, is opened by the decoder and read
 * back whole exactly when it has at most 255 top-level fields and nests structs at most 8 deep.
 */
module EventRoundTrip {
  import opened Bytes
  import opened FieldTypes
  import opened EnumeratorModel
  import opened EnumeratorBudget
  import opened EventFraming
  import opened EventOpening
  import opened EventEncoding
  import opened EventDecoding
  import TracepointName

  // ---- opening a framed event ----

  lemma HeaderReads(bigEndian: bool, data: bytes, h: EventHeader)
    requires At(data, 0, HeaderBytes(bigEndian, h)) && IsBigEndian(h.flags) == bigEndian
    ensures ReadHeader(data) == h
  {
    hide ReadU16, IsBigEndian;
    var id, tag := WriteU16(bigEndian, h.id), WriteU16(bigEndian, h.tag);
    AtIndex(data, 0, HeaderBytes(bigEndian, h), 0);
    AtIndex(data, 0, HeaderBytes(bigEndian, h), 1);
    AtIndex(data, 0, HeaderBytes(bigEndian, h), 6);
    AtIndex(data, 0, HeaderBytes(bigEndian, h), 7);
    AtSplit(data, 0, [h.flags, h.version] + id + tag, [h.opcode, h.level]);
    AtSplit(data, 0, [h.flags, h.version] + id, tag);
    AtSplit(data, 0, [h.flags, h.version], id);
    ReadWritten(bigEndian, data, 2, h.id);
    ReadWritten(bigEndian, data, 4, h.tag);
  }

  lemma ExtensionReads(bigEndian: bool, data: bytes, pos: nat, size: u16, kind: u16, chain: bool)
    requires kind < KIND_CHAIN_FLAG && At(data, pos, ExtensionBytes(bigEndian, size, kind, chain))
    ensures ReadU16(bigEndian, data, pos) == size
    ensures ReadU16(bigEndian, data, pos + 2) == if chain then kind + KIND_CHAIN_FLAG else kind
  {
    hide ReadU16;
    var k := if chain then kind + KIND_CHAIN_FLAG else kind;
    AtSplit(data, pos, WriteU16(bigEndian, size), WriteU16(bigEndian, k));
    ReadWritten(bigEndian, data, pos, size);
    ReadWritten(bigEndian, data, pos + 2, k);
  }

  lemma MetadataFound(bigEndian: bool, data: bytes, pos: nat, x: Extents, metaLen: u16)
    requires metaLen > 0 && x.metaStart == 0
    requires At(data, pos, MetadataHeader(bigEndian, metaLen)) && pos + EXTENSION_SIZE + metaLen <= |data|
    ensures var start := pos + EXTENSION_SIZE;
            Extensions(bigEndian, data, pos, x)
            == Found(x.(metaStart := start, metaEnd := start + metaLen), start + metaLen)
  {
    hide ReadU16, ExtensionBytes;
    ExtensionReads(bigEndian, data, pos, metaLen, KIND_METADATA, false);
  }

  lemma ActivityFound(bigEndian: bool, data: bytes, pos: nat, activity: bytes)
    requires |activity| == ID_SIZE || |activity| == 2 * ID_SIZE
    requires At(data, pos, ActivityBlock(bigEndian, activity, true))
    ensures var start := pos + EXTENSION_SIZE;
            && At(data, start, activity)
            && Extensions(bigEndian, data, pos, NO_EXTENTS)
               == Extensions(bigEndian, data, start + |activity|,
                    NO_EXTENTS.(activityStart := start, activityLen := |activity|))
  {
    hide ReadU16, ExtensionBytes;
    AtSplit(data, pos, ExtensionBytes(bigEndian, |activity|, KIND_ACTIVITY_ID, true), activity);
    ExtensionReads(bigEndian, data, pos, |activity|, KIND_ACTIVITY_ID, true);
  }

  /** An activity section as `write_eventheader` can be given. */
  predicate ActivityOk(activity: bytes) {
    activity == [] || |activity| == ID_SIZE || |activity| == 2 * ID_SIZE
  }

  function ActivityStart(activity: bytes): nat {
    if activity == [] then 0 else HEADER_SIZE + EXTENSION_SIZE
  }

  function MetaStart(activity: bytes): nat {
    HEADER_SIZE + (if activity == [] then 0 else EXTENSION_SIZE + |activity|) + EXTENSION_SIZE
  }

  lemma EventLayout(bigEndian: bool, h: EventHeader, activity: bytes, meta: bytes, data: bytes)
    requires ActivityOk(activity) && 0 < |meta| <= 65535
    ensures var e := EventBytes(bigEndian, h, activity, meta, data);
            && |e| == MetaStart(activity) + |meta| + |data|
            && At(e, 0, HeaderBytes(bigEndian, h))
            && At(e, HEADER_SIZE, ActivityBlock(bigEndian, activity, true))
            && At(e, MetaStart(activity) - EXTENSION_SIZE, MetadataHeader(bigEndian, |meta|))
            && At(e, MetaStart(activity), meta)
            && At(e, MetaStart(activity) + |meta|, data)
  {
    var e := EventBytes(bigEndian, h, activity, meta, data);
    hide HeaderBytes, ExtensionBytes;
    assert |ActivityBlock(bigEndian, activity, true)| == MetaStart(activity) - HEADER_SIZE - EXTENSION_SIZE;
    assert |MetadataHeader(bigEndian, |meta|)| == EXTENSION_SIZE;
    hide ActivityBlock, MetadataHeader, MetaStart;
    assert At(e, 0, Prologue(bigEndian, h, activity, |meta|) + (meta + data));
    AtSplit(e, 0, Prologue(bigEndian, h, activity, |meta|), meta + data);
    AtSplit(e, MetaStart(activity), meta, data);
    AtSplit(e, 0, HeaderBytes(bigEndian, h) + ActivityBlock(bigEndian, activity, true),
        MetadataHeader(bigEndian, |meta|));
    AtSplit(e, 0, HeaderBytes(bigEndian, h), ActivityBlock(bigEndian, activity, true));
  }

  lemma {:induction false} ZeroFound(data: bytes, pos: nat, end: nat, name: bytes, k: nat)
    requires NoZero(name) && k <= |name| && pos + |name| < end <= |data| && At(data, pos, name + [0])
    ensures FindZero(data, pos + k, end) == pos + |name|
    decreases |name| - k
  {
    AtIndex(data, pos, name + [0], k);
    if k < |name| {
      ZeroFound(data, pos, end, name, k + 1);
    }
  }

  /** The event that a framed event is opened as. */
  function Framed(bigEndian: bool, h: EventHeader, activity: bytes, name: bytes, meta: bytes, data: bytes): Event
    requires |activity| <= 2 * ID_SIZE && |name + [0] + meta| <= 65535
  {
    var e := EventBytes(bigEndian, h, activity, name + [0] + meta, data);
    var metaEnd := MetaStart(activity) + |name| + 1 + |meta|;
    Event(e, bigEndian, MetaStart(activity), metaEnd, |name|, metaEnd)
  }

  /** Every event framed by `write_eventheader` is opened, with all its parts where they were put. */
  lemma FramedOpens(bigEndian: bool, pointer64: bool, h: EventHeader, activity: bytes, name: bytes, meta: bytes,
                    data: bytes, tracepointName: bytes, keyword: u64)
    requires h.flags == DefaultWithExtension(bigEndian, pointer64) && ActivityOk(activity) && NoZero(name)
    requires |name| + 1 + |meta| + |data| <= PAYLOAD_MAX
    requires |tracepointName| < TracepointName.NAME_MAX
    requires TracepointName.ParseName(tracepointName, h.level) == TracepointName.Accepted(keyword)
    ensures var ev := Framed(bigEndian, h, activity, name, meta, data);
            && Open(tracepointName, ev.data) == Opened(h, keyword, ev, ActivityStart(activity), |activity|)
            && At(ev.data, ActivityStart(activity), activity)
            && At(ev.data, ev.metaStart, name)
            && At(ev.data, ev.metaStart + |name| + 1, meta)
            && At(ev.data, ev.dataStart, data)
            && ev.dataStart + |data| == |ev.data|
  {
    hide TracepointName.ParseName, Extensions, EventBytes, HeaderBytes, MetadataHeader, ActivityBlock, FindZero,
        ReadU16;
    var block := name + [0] + meta;
    var e := EventBytes(bigEndian, h, activity, block, data);
    EventLayout(bigEndian, h, activity, block, data);
    HeaderReads(bigEndian, e, h);
    AtSplit(e, MetaStart(activity), name + [0], meta);
    AtSplit(e, MetaStart(activity), name, [0]);
    ZeroFound(e, MetaStart(activity), MetaStart(activity) + |block|, name, 0);
    ExtensionsFound(bigEndian, e, activity, |block|);
  }

  lemma ExtensionsFound(bigEndian: bool, e: bytes, activity: bytes, metaLen: u16)
    requires ActivityOk(activity) && metaLen > 0 && MetaStart(activity) + metaLen <= |e|
    requires At(e, HEADER_SIZE, ActivityBlock(bigEndian, activity, true))
    requires At(e, MetaStart(activity) - EXTENSION_SIZE, MetadataHeader(bigEndian, metaLen))
    ensures At(e, ActivityStart(activity), activity)
    ensures var metaEnd := MetaStart(activity) + metaLen;
            Extensions(bigEndian, e, HEADER_SIZE, NO_EXTENTS)
            == Found(Extents(MetaStart(activity), metaEnd, ActivityStart(activity), |activity|), metaEnd)
  {
    hide Extensions, MetadataHeader, ActivityBlock;
    if activity == [] {
      MetadataFound(bigEndian, e, HEADER_SIZE, NO_EXTENTS, metaLen);
    } else {
      ActivityFound(bigEndian, e, HEADER_SIZE, activity);
      var x := NO_EXTENTS.(activityStart := HEADER_SIZE + EXTENSION_SIZE, activityLen := |activity|);
      MetadataFound(bigEndian, e, HEADER_SIZE + EXTENSION_SIZE + |activity|, x, metaLen);
    }
  }

  // ---- enumerating ----

  /** `move_next` repeated until it reports no item: the items seen and the state it ends in. */
  function Drain(ev: Event, m: Core, budget: nat): (r: (seq<Item>, Core))
    requires Inv(ev, m) && CanMoveNext(m.sub)
    decreases budget
  {
    hide Inv, Step, Observed;
    StepInv(ev, m);
    LimitInv(ev, m);
    var (m', budget') := MoveNext(ev, m, budget);
    if IsItem(m'.sub) then
      var (items, last) := Drain(ev, m', budget');
      ([Observed(ev, m')] + items, last)
    else ([], m')
  }

  /** A budget of one call per item and one more is enough to see all items a run visits. */
  lemma {:induction false} DrainVisits(ev: Event, m: Core, items: seq<Item>, last: Core, budget: nat)
    requires Inv(ev, m) && CanMoveNext(m.sub) && Visits(ev, Step(ev, m), items, last)
    requires !IsItem(last.sub) && budget > |items|
    ensures Drain(ev, m, budget) == (items, last)
    decreases |items|
  {
    hide Inv, Step, Observed;
    if items != [] {
      DrainVisits(ev, Step(ev, m), items[1..], last, budget - 1);
      assert items == [items[0]] + items[1..];
    }
  }

  // ---- whole events ----

  lemma FirstSplit<T>(fs: seq<T>, k: nat)
    requires 0 < k <= |fs|
    ensures fs[..k][1..] == fs[1..][..k - 1] && fs[1..][k - 1..] == fs[k..] && fs[..k][0] == fs[0] && fs[..k] != []
  {
  }

  lemma {:induction false} MetaSplit(bigEndian: bool, fs: seq<Field>, k: nat)
    requires k <= |fs|
    ensures MetaAll(bigEndian, fs) == MetaAll(bigEndian, fs[..k]) + MetaAll(bigEndian, fs[k..])
  {
    hide Meta;
    if k == 0 {
      assert fs[0..] == fs;
    } else {
      MetaSplit(bigEndian, fs[1..], k - 1);
      FirstSplit(fs, k);
    }
  }

  lemma {:induction false} FieldsSplit(fs: seq<Field>, k: nat)
    requires FieldsOk(fs) && k <= |fs|
    ensures FieldsOk(fs[..k]) && FieldsOk(fs[k..])
    ensures AllUncut(fs) ==> AllUncut(fs[..k])
  {
    hide Uncut, FieldOk;
    if k == 0 {
      assert fs[0..] == fs;
    } else {
      FieldsSplit(fs[1..], k - 1);
      FirstSplit(fs, k);
    }
  }

  lemma {:induction false} DataSplit(bigEndian: bool, fs: seq<Field>, k: nat)
    requires FieldsOk(fs) && k <= |fs| && FieldsOk(fs[..k]) && FieldsOk(fs[k..])
    ensures DataAll(bigEndian, fs) == DataAll(bigEndian, fs[..k]) + DataAll(bigEndian, fs[k..])
  {
    hide Data, FieldOk;
    if k == 0 {
      assert fs[0..] == fs;
    } else {
      FirstSplit(fs, k);
      FieldsSplit(fs[1..], k - 1);
      DataSplit(bigEndian, fs[1..], k - 1);
    }
  }

  /** The machine before the first field of a framed event. */
  lemma ReadyForFields(bigEndian: bool, ev: Event, m: Core, fs: seq<Field>, k: nat)
    requires ev.Valid() && ev.bigEndian == bigEndian && FieldsOk(fs) && k <= |fs|
    requires At(ev.data, ev.metaStart + ev.nameLen + 1, MetaAll(bigEndian, fs))
    requires ev.metaStart + ev.nameLen + 1 + |MetaAll(bigEndian, fs)| == ev.metaEnd
    requires At(ev.data, ev.dataStart, DataAll(bigEndian, fs))
    ensures FieldsOk(fs[..k])
    ensures Inv(ev, Reset(ev, m)) && Step(ev, Reset(ev, m)) == NextProperty(ev, Reset(ev, m))
    ensures Placed(ev, Reset(ev, m), MetaAll(bigEndian, fs[..k]), DataAll(bigEndian, fs[..k]))
  {
    hide MetaAll, DataAll, FieldsOk, NextProperty, CanRead, Inv, Step;
    ResetReads(ev, m);
    FieldsSplit(fs, k);
    MetaSplit(bigEndian, fs, k);
    DataSplit(bigEndian, fs, k);
    AtSplit(ev.data, ev.metaStart + ev.nameLen + 1, MetaAll(bigEndian, fs[..k]), MetaAll(bigEndian, fs[k..]));
    AtSplit(ev.data, ev.dataStart, DataAll(bigEndian, fs[..k]), DataAll(bigEndian, fs[k..]));
  }

  // ---- too many fields, too deep ----

  /** The structs that may still be opened, after an item, where `room` might before it. */
  function RoomAfter(room: int, item: Item): int {
    if item.state == StateStructBegin then room - 1
    else if item.state == StateStructEnd then room + 1
    else room
  }

  function RoomAfterAll(room: int, items: seq<Item>): int
    decreases |items|
  {
    if items == [] then room else RoomAfterAll(RoomAfter(room, items[0]), items[1..])
  }

  /** At no item are more structs open than there is room for. */
  predicate Fits(items: seq<Item>, room: int) {
    room >= 0 && (items == [] || Fits(items[1..], RoomAfter(room, items[0])))
  }

  /** The last item begins a struct for which there is no room; there was room for all before it. */
  predicate OverflowsAtEnd(items: seq<Item>, room: int) {
    && items != [] && room >= 0
    && if |items| == 1 then room == 0 && items[0].state == StateStructBegin
       else OverflowsAtEnd(items[1..], RoomAfter(room, items[0]))
  }

  /** There is but one such item in a list. */
  lemma {:induction false} OverflowIsUnique(all: seq<Item>, a: seq<Item>, b: seq<Item>, room: int)
    requires a <= all && b <= all && OverflowsAtEnd(a, room) && OverflowsAtEnd(b, room)
    ensures a == b
    decreases |all|
  {
    assert a[0] == all[0] == b[0];
    if |a| > 1 && |b| > 1 {
      OverflowIsUnique(all[1..], a[1..], b[1..], RoomAfter(room, all[0]));
      assert a == [a[0]] + a[1..] && b == [b[0]] + b[1..];
    }
  }

  lemma {:induction false} FitsJoin(a: seq<Item>, b: seq<Item>, room: int)
    requires Fits(a, room)
    ensures RoomAfterAll(room, a + b) == RoomAfterAll(RoomAfterAll(room, a), b)
    ensures Fits(b, RoomAfterAll(room, a)) ==> Fits(a + b, room)
    ensures OverflowsAtEnd(b, RoomAfterAll(room, a)) ==> OverflowsAtEnd(a + b, room)
  {
    if a == [] {
      assert a + b == b;
    } else {
      assert (a + b)[1..] == a[1..] + b;
      FitsJoin(a[1..], b, RoomAfter(room, a[0]));
    }
  }

  lemma FitsOne(item: Item, room: int)
    requires room >= 0 && RoomAfter(room, item) >= 0
    ensures Fits([item], room) && RoomAfterAll(room, [item]) == RoomAfter(room, item)
  {
    assert [item][1..] == [];
  }

  lemma {:induction false} ValuesFit(f: Field, vs: seq<bytes>, room: int)
    requires f.Leaf? && IsLeaf(f.encoding) && room >= 0
    ensures Fits(ValueItems(f, vs), room) && RoomAfterAll(room, ValueItems(f, vs)) == room
  {
    if vs != [] {
      ValuesFit(f, vs[1..], room);
      assert ValueItems(f, vs)[1..] == ValueItems(f, vs[1..]);
    }
  }

  /** A field within the room fits, and leaves the room as it was. */
  lemma {:induction false} FieldFits(f: Field, room: int)
    requires FieldOk(f) && Depth(f) <= room
    ensures Fits(Items(f), room) && RoomAfterAll(room, Items(f)) == room
    decreases f
  {
    hide FieldsOk, DepthAll;
    match f
    case Leaf(_, encoding, isArray, _, _, values) =>
      if isArray {
        var begin := ArrayItem(f, StateArrayBegin, if IsFixed(encoding) then Concat(values) else []);
        var end := ArrayItem(f, StateArrayEnd, []);
        FitsOne(begin, room);
        ValuesFit(f, values, room);
        FitsOne(end, room);
        FitsJoin([begin], ValueItems(f, values), room);
        FitsJoin([begin] + ValueItems(f, values), [end], room);
      } else {
        FitsOne(ValueItem(f, values[0]), room);
      }
    case Struct(_, _, fields) =>
      var begin, end := StructItem(f, StateStructBegin), StructItem(f, StateStructEnd);
      FitsOne(begin, room);
      FieldsFit(fields, room - 1);
      FitsOne(end, room - 1);
      FitsJoin([begin], ItemsAll(fields), room);
      FitsJoin([begin] + ItemsAll(fields), [end], room);
  }

  lemma {:induction false} FieldsFit(fs: seq<Field>, room: int)
    requires FieldsOk(fs) && DepthAll(fs) <= room
    ensures Fits(ItemsAll(fs), room) && RoomAfterAll(room, ItemsAll(fs)) == room
    decreases fs
  {
    hide FieldOk, Depth, Items;
    if fs != [] {
      FieldFits(fs[0], room);
      FieldsFit(fs[1..], room);
      FitsJoin(Items(fs[0]), ItemsAll(fs[1..]), room);
    }
  }

  lemma PrefixAfter(a: seq<Item>, b: seq<Item>, all: seq<Item>)
    requires b <= all
    ensures a + b <= a + all
  {
  }

  lemma PrefixWithin(a: seq<Item>, all: seq<Item>, rest: seq<Item>)
    requires a <= all
    ensures a <= all + rest
  {
  }

  /**
   * Nested too deep, a tree is not read to its end: what is seen are its items up to the first struct for
   * which there is no room on the stack, that struct's begin included.
   */
  lemma {:induction false} TooDeepFails(ev: Event, n: Core, fs: seq<Field>) returns (items: seq<Item>, last: Core)
    requires FieldsOk(fs) && AllUncut(fs) && n.top.remaining >= |fs|
    requires |n.stack| + DepthAll(fs) > STRUCT_NEST_LIMIT
    requires Placed(ev, n, MetaAll(ev.bigEndian, fs), DataAll(ev.bigEndian, fs))
    ensures Visits(ev, NextProperty(ev, n), items, last)
    ensures last.sub == Error && last.err == EnumeratorError.StackOverflow
    ensures items <= ItemsAll(fs) && OverflowsAtEnd(items, STRUCT_NEST_LIMIT - |n.stack|)
    decreases fs
  {
    hide CanRead, NextProperty, Inv, Step, At, Observed, Meta, Data, Items, Uncut, FieldOk, Depth, Visits;
    if fs == [] {
      StackFits(ev, n);
      items, last := [], n;
    } else {
      AtSplit(ev.data, n.top.next, Meta(ev.bigEndian, fs[0]), MetaAll(ev.bigEndian, fs[1..]));
      AtSplit(ev.data, n.pos, Data(ev.bigEndian, fs[0]), DataAll(ev.bigEndian, fs[1..]));
      if |n.stack| + Depth(fs[0]) > STRUCT_NEST_LIMIT {
        items, last := StructTooDeepFails(ev, n, fs[0]);
        PrefixWithin(items, Items(fs[0]), ItemsAll(fs[1..]));
      } else {
        var n1 := DecodeField(ev, n, fs[0]);
        var rest;
        rest, last := TooDeepFails(ev, n1, fs[1..]);
        VisitsJoin(ev, NextProperty(ev, n), Items(fs[0]), NextProperty(ev, n1), rest, last);
        items := Items(fs[0]) + rest;
        FieldFits(fs[0], STRUCT_NEST_LIMIT - |n.stack|);
        FitsJoin(Items(fs[0]), rest, STRUCT_NEST_LIMIT - |n.stack|);
        PrefixAfter(Items(fs[0]), rest, ItemsAll(fs[1..]));
      }
    }
  }

  lemma StackFits(ev: Event, n: Core)
    requires CanRead(ev, n)
    ensures |n.stack| <= STRUCT_NEST_LIMIT
  {
  }

  lemma {:induction false} StructTooDeepFails(ev: Event, n: Core, f: Field) returns (items: seq<Item>, last: Core)
    requires FieldOk(f) && Uncut(f) && n.top.remaining > 0
    requires |n.stack| + Depth(f) > STRUCT_NEST_LIMIT
    requires Placed(ev, n, Meta(ev.bigEndian, f), Data(ev.bigEndian, f))
    ensures Visits(ev, NextProperty(ev, n), items, last)
    ensures last.sub == Error && last.err == EnumeratorError.StackOverflow
    ensures items <= Items(f) && OverflowsAtEnd(items, STRUCT_NEST_LIMIT - |n.stack|)
    decreases f
  {
    hide MetaEntry, EncodingOf, NextProperty, WithoutFlags, IsArray, OnField, Inv, Step, At,
      Observed, Visits, On, MetaAll, DataAll, ItemsAll, AllUncut, FieldsOk, DepthAll, CanRead;
    StackFits(ev, n);
    var m := NextProperty(ev, n);
    StructBegins(ev, n, f);
    StructObserved(ev, m, f);
    var begin := StructItem(f, StateStructBegin);
    VisitsOne(ev, m, begin);
    if |m.stack| >= STRUCT_NEST_LIMIT {
      EnterMoves(ev, m);
      items, last := [begin], Step(ev, m);
      PrefixWithin([begin], [begin], ItemsAll(f.fields) + [StructItem(f, StateStructEnd)]);
    } else {
      StructEnters(ev, m, f);
      var rest;
      rest, last := TooDeepFails(ev, PushStruct(m), f.fields);
      VisitsJoin(ev, m, [begin], Step(ev, m), rest, last);
      items := [begin] + rest;
      FitsOne(begin, STRUCT_NEST_LIMIT - |n.stack|);
      FitsJoin([begin], rest, STRUCT_NEST_LIMIT - |n.stack|);
      PrefixAfter([begin], rest, ItemsAll(f.fields));
      PrefixWithin(items, [begin] + ItemsAll(f.fields), [StructItem(f, StateStructEnd)]);
    }
  }

  // ---- the round trip ----

  lemma {:induction false} ItemsSplit(fs: seq<Field>, k: nat)
    requires FieldsOk(fs) && k <= |fs| && FieldsOk(fs[..k])
    ensures |ItemsAll(fs[..k])| <= |ItemsAll(fs)|
  {
    hide Items, FieldOk;
    if k > 0 {
      FirstSplit(fs, k);
      FieldsSplit(fs[1..], k - 1);
      ItemsSplit(fs[1..], k - 1);
    }
  }

  lemma {:induction false} DepthSplit(fs: seq<Field>, k: nat)
    requires k <= |fs|
    ensures DepthAll(fs[..k]) <= DepthAll(fs)
  {
    hide Depth;
    if k > 0 {
      FirstSplit(fs, k);
      DepthSplit(fs[1..], k - 1);
    }
  }

  /** An event the decoder reads to its end. */
  predicate Readable(fs: seq<Field>) {
    |fs| <= TOP_LEVEL_FIELD_LIMIT && DepthAll(fs) <= STRUCT_NEST_LIMIT
  }

  /** The fields the decoder gets to: the rest are beyond its limit on top-level fields. */
  function Reached(fs: seq<Field>): seq<Field> {
    if |fs| <= TOP_LEVEL_FIELD_LIMIT then fs else fs[..TOP_LEVEL_FIELD_LIMIT]
  }

  /** The bytes of `fs` placed in an event where `write` puts them. */
  ghost predicate Holds(ev: Event, fs: seq<Field>) {
    && ev.Valid() && FieldsOk(fs) && AllUncut(fs)
    && At(ev.data, ev.metaStart + ev.nameLen + 1, MetaAll(ev.bigEndian, fs))
    && ev.metaStart + ev.nameLen + 1 + |MetaAll(ev.bigEndian, fs)| == ev.metaEnd
    && At(ev.data, ev.dataStart, DataAll(ev.bigEndian, fs))
    && ev.dataStart + |DataAll(ev.bigEndian, fs)| == |ev.data|
  }

  lemma EndsAfterLast(ev: Event, n: Core)
    requires CanRead(ev, n) && n.stack == []
    ensures n.top.next == ev.metaEnd ==> NextProperty(ev, n).sub == AfterLastItem && NextProperty(ev, n).pos == n.pos
    ensures n.top.next != ev.metaEnd && n.top.remaining == 0 ==>
              NextProperty(ev, n).sub == Error && NextProperty(ev, n).err == EnumeratorError.NotSupported
  {
    hide StackOk, NextField;
  }

  lemma ReachedTooDeep(ev: Event, m: Core, fs: seq<Field>, budget: nat)
    requires Holds(ev, fs) && DepthAll(Reached(fs)) > STRUCT_NEST_LIMIT && budget > |ItemsAll(fs)|
    ensures Inv(ev, Reset(ev, m))
    ensures var (items, last) := Drain(ev, Reset(ev, m), budget);
            && last.sub == Error && last.err == EnumeratorError.StackOverflow
            && FieldsOk(Reached(fs))
            && items <= ItemsAll(Reached(fs)) && OverflowsAtEnd(items, STRUCT_NEST_LIMIT)
  {
    hide CanRead, NextProperty, Step, OverflowsAtEnd, MetaAll, DataAll, ItemsAll, DepthAll, AllUncut, FieldsOk, Visits,
      Drain, Inv;
    var k := |Reached(fs)|;
    assert Reached(fs) == fs[..k];
    ReadyForFields(ev.bigEndian, ev, m, fs, k);
    FieldsSplit(fs, k);
    ItemsSplit(fs, k);
    var items, last := TooDeepFails(ev, Reset(ev, m), fs[..k]);
    DrainVisits(ev, Reset(ev, m), items, last, budget);
  }

  lemma ReachedAreRead(ev: Event, m: Core, fs: seq<Field>, budget: nat)
    requires Holds(ev, fs) && DepthAll(Reached(fs)) <= STRUCT_NEST_LIMIT && budget > |ItemsAll(fs)|
    ensures Inv(ev, Reset(ev, m)) && FieldsOk(Reached(fs))
    ensures var (items, last) := Drain(ev, Reset(ev, m), budget);
            && items == ItemsAll(Reached(fs))
            && (if |fs| <= TOP_LEVEL_FIELD_LIMIT then last.sub == AfterLastItem && last.pos == |ev.data|
                else last.sub == Error && last.err == EnumeratorError.NotSupported)
  {
    hide CanRead, NextProperty, Step, MetaAll, DataAll, ItemsAll, DepthAll, AllUncut, FieldsOk, Visits, Drain, Inv, At;
    var k := |Reached(fs)|;
    assert Reached(fs) == fs[..k];
    var start := Reset(ev, m);
    ReadyForFields(ev.bigEndian, ev, m, fs, k);
    FieldsSplit(fs, k);
    ItemsSplit(fs, k);
    MetaSplit(ev.bigEndian, fs, k);
    RestNotEmpty(ev.bigEndian, fs, k);
    var n := DecodeFields(ev, start, fs[..k]);
    EndsAfterLast(ev, n);
    DrainVisits(ev, start, ItemsAll(fs[..k]), NextProperty(ev, n), budget);
  }

  lemma RestNotEmpty(bigEndian: bool, fs: seq<Field>, k: nat)
    requires k <= |fs|
    ensures k < |fs| ==> MetaAll(bigEndian, fs[k..]) != []
    ensures k == |fs| ==> MetaAll(bigEndian, fs[k..]) == []
    ensures k == |fs| ==> fs[..k] == fs
  {
    if k < |fs| {
      EntryNotEmpty(bigEndian, fs[k..][0]);
    }
  }

  /**
   * Reading back an event that holds `fs`: it is read whole, to its last byte, exactly when it is
   * `Readable`; one with too many fields is read up to the limit, one nested too deep up to the begin of
   * the first struct that does not fit.
   */
  lemma ReadsBack(ev: Event, m: Core, fs: seq<Field>, budget: nat)
    requires Holds(ev, fs) && budget > |ItemsAll(fs)|
    ensures Inv(ev, Reset(ev, m)) && FieldsOk(Reached(fs))
    ensures var (items, last) := Drain(ev, Reset(ev, m), budget);
            && (last.sub == AfterLastItem <==> Readable(fs))
            && (Readable(fs) ==> items == ItemsAll(fs) && last.pos == |ev.data|)
            && (!Readable(fs) ==>
                 && last.sub == Error
                 && last.err == if DepthAll(Reached(fs)) > STRUCT_NEST_LIMIT then EnumeratorError.StackOverflow
                                else EnumeratorError.NotSupported)
            && (DepthAll(Reached(fs)) <= STRUCT_NEST_LIMIT ==> items == ItemsAll(Reached(fs)))
            && (DepthAll(Reached(fs)) > STRUCT_NEST_LIMIT ==>
                  items <= ItemsAll(Reached(fs)) && OverflowsAtEnd(items, STRUCT_NEST_LIMIT))
  {
    hide Step, MetaAll, DataAll, ItemsAll, DepthAll, Drain, Inv, Holds;
    FieldsReached(ev, fs);
    if DepthAll(Reached(fs)) > STRUCT_NEST_LIMIT {
      ReachedTooDeep(ev, m, fs, budget);
    } else {
      ReachedAreRead(ev, m, fs, budget);
    }
  }

  lemma FieldsReached(ev: Event, fs: seq<Field>)
    requires Holds(ev, fs)
    ensures FieldsOk(fs) && FieldsOk(Reached(fs)) && DepthAll(Reached(fs)) <= DepthAll(fs)
  {
    hide MetaAll, DataAll, AllUncut;
    FieldsSplit(fs, |Reached(fs)|);
    DepthSplit(fs, |Reached(fs)|);
  }

  /**
   * The codec round trip. Whatever the provider, header, activity and fields: if `write` accepts
   * the event then nothing in it was cut, its name and bytes are opened with everything as written,
   * and reading it back gives what `ReadsBack` says, whatever state the context was in before.
   */
  lemma CodecRoundTrip(bigEndian: bool, pointer64: bool, h: EventHeader, activity: bytes, name: bytes, fs: seq<Field>,
                       provider: bytes, group: bytes, keyword: u64)
    requires h.flags == DefaultWithExtension(bigEndian, pointer64) && ActivityOk(activity) && NoZero(name)
    requires TracepointName.ProviderOk(provider, group)
    requires FieldsOk(fs)
    requires |name + [0] + MetaAll(bigEndian, fs)| + |DataAll(bigEndian, fs)| <= PAYLOAD_MAX
    ensures AllUncut(fs)
    ensures var tracepointName := TracepointName.NameFor(provider, TracepointName.OptionsFor(group), h.level, keyword);
            var ev := Framed(bigEndian, h, activity, name, MetaAll(bigEndian, fs), DataAll(bigEndian, fs));
            && Open(tracepointName, ev.data) == Opened(h, keyword, ev, ActivityStart(activity), |activity|)
            && At(ev.data, ActivityStart(activity), activity)
            && At(ev.data, ev.metaStart, name)
            && Holds(ev, fs)
  {
    hide MetaAll, DataAll, Open, FieldsOk, EventBytes, DefaultWithExtension, At, NoZero;
    var tracepointName := TracepointName.NameFor(provider, TracepointName.OptionsFor(group), h.level, keyword);
    var meta, data := MetaAll(bigEndian, fs), DataAll(bigEndian, fs);
    SmallAreUncut(bigEndian, fs);
    TracepointName.NameRoundTrip(provider, group, h.level, keyword, h.level);
    FramedOpens(bigEndian, pointer64, h, activity, name, meta, data, tracepointName, keyword);
    OpenedIsValid(tracepointName, Framed(bigEndian, h, activity, name, meta, data).data, Blank());
  }

  function Blank(): Core {
    Core(0, Frame(0, 0, 0, 0, 0, 0), [], Error, Success, 0, NO_TYPE, 0, 0, 0)
  }

  // ---- events that are sent and not read to their end ----

  /** A nameless byte. */
  const SMALL := Leaf([], ENCODING_VALUE8, false, 0, 0, [[7]])

  function Many(n: nat): (fs: seq<Field>)
    ensures |fs| == n
  {
    if n == 0 then [] else [SMALL] + Many(n - 1)
  }

  function Nested(depth: nat): Field {
    if depth == 0 then SMALL else Struct([], 0, [Nested(depth - 1)])
  }

  lemma SmallSize(bigEndian: bool)
    ensures FieldOk(SMALL) && Depth(SMALL) == 0
    ensures |Meta(bigEndian, SMALL)| == 2 && |Data(bigEndian, SMALL)| == 1
  {
  }

  lemma {:induction false} ManySize(bigEndian: bool, n: nat)
    ensures FieldsOk(Many(n)) && DepthAll(Many(n)) == 0
    ensures |MetaAll(bigEndian, Many(n))| == 2 * n && |DataAll(bigEndian, Many(n))| == n
  {
    SmallSize(bigEndian);
    hide FieldOk, Depth, Meta, Data;
    if n > 0 {
      ManySize(bigEndian, n - 1);
      assert Many(n)[1..] == Many(n - 1);
    }
  }

  /** One struct around a field. */
  lemma AroundSize(bigEndian: bool, f: Field)
    requires FieldOk(f)
    ensures var s := Struct([], 0, [f]);
            && FieldOk(s) && Depth(s) == Depth(f) + 1
            && |Meta(bigEndian, s)| == |Meta(bigEndian, f)| + 3 && Data(bigEndian, s) == Data(bigEndian, f)
  {
    AloneSize(bigEndian, f);
    hide FieldsOk, DepthAll, MetaAll, DataAll;
  }

  lemma {:induction false} NestedSize(bigEndian: bool, depth: nat)
    ensures FieldOk(Nested(depth)) && Depth(Nested(depth)) == depth
    ensures |Meta(bigEndian, Nested(depth))| == 3 * depth + 2 && |Data(bigEndian, Nested(depth))| == 1
  {
    hide FieldOk, Depth, Meta, Data;
    if depth == 0 {
      SmallSize(bigEndian);
    } else {
      NestedSize(bigEndian, depth - 1);
      AroundSize(bigEndian, Nested(depth - 1));
    }
  }

  /** A list of one field. */
  lemma AloneSize(bigEndian: bool, f: Field)
    requires FieldOk(f)
    ensures FieldsOk([f]) && DepthAll([f]) == Depth(f)
    ensures MetaAll(bigEndian, [f]) == Meta(bigEndian, f) && DataAll(bigEndian, [f]) == Data(bigEndian, f)
  {
    hide FieldOk, Depth, Meta, Data;
    assert [f][1..] == [];
  }

  /** What `write` lets pass, with an event name of one character. */
  predicate Passes(bigEndian: bool, fs: seq<Field>)
    requires FieldsOk(fs)
  {
    |['e' as int, 0] + MetaAll(bigEndian, fs)| + |DataAll(bigEndian, fs)| <= PAYLOAD_MAX
  }

  /** One field too many, or one struct too deep: such events are sent, and not read to their end. */
  lemma SentButNotRead(bigEndian: bool)
    ensures FieldsOk(Many(256)) && Passes(bigEndian, Many(256)) && !Readable(Many(256))
    ensures FieldsOk([Nested(9)]) && Passes(bigEndian, [Nested(9)]) && !Readable([Nested(9)])
  {
    hide FieldOk, Depth, Meta, Data, MetaAll, DataAll, FieldsOk, DepthAll;
    ManySize(bigEndian, 256);
    NestedSize(bigEndian, 9);
    AloneSize(bigEndian, Nested(9));
  }
}

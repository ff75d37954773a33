/**
 * From builder to JSON: for every event that can be read back, the tree whose text `JsonOutput`
 * writes is the tree of fields the event was built from.
 */
module JsonOfEvent {
  import opened Bytes
  import FieldTypes
  import opened EnumeratorModel
  import opened EnumeratorNesting
  import opened EnumeratorRuns
  import opened EventEncoding
  import opened EventDecoding
  import opened EventRoundTrip

  // ---- a word has one reading ----

  function SpellFront(ns: seq<Node>): seq<Symbol> {
    if ns == [] then [] else Spell(ns[0]) + SpellFront(ns[1..])
  }

  lemma {:induction false} SpellJoin(a: seq<Node>, b: seq<Node>)
    ensures SpellAll(a + b) == SpellAll(a) + SpellAll(b)
  {
    hide Spell;
    if b == [] {
      assert a + b == a;
    } else {
      var last := |b| - 1;
      assert (a + b)[..|a + b| - 1] == a + b[..last];
      SpellJoin(a, b[..last]);
    }
  }

  lemma {:induction false} FrontIsAll(ns: seq<Node>)
    ensures SpellAll(ns) == SpellFront(ns)
  {
    hide Spell;
    if ns != [] {
      FrontIsAll(ns[1..]);
      SpellJoin([ns[0]], ns[1..]);
      assert [ns[0]] + ns[1..] == ns;
      assert [ns[0]][..0] == [];
    }
  }

  /** Symbols that cannot start a node: the end of the word, or a closing bracket. */
  predicate Ends(w: seq<Symbol>) { w == [] || w[0] == ArrayClose || w[0] == StructClose }

  /** The word of a node, its first symbol apart. */
  lemma SpellParts(n: Node, w: seq<Symbol>)
    ensures Spell(n) + w
         == match n
            case Leaf(key, value) => [Value(key, value)] + w
            case StructNode(key, fields) => [StructOpen(key)] + (SpellAll(fields) + ([StructClose] + w))
            case ArrayNode(key, elements) => [ArrayOpen(key, |elements|)] + (SpellAll(elements) + ([ArrayClose] + w))
  {
    hide SpellAll;
  }

  lemma TailsEqual(x: Symbol, a: seq<Symbol>, x': Symbol, a': seq<Symbol>)
    requires [x] + a == [x'] + a'
    ensures x == x' && a == a'
  {
    assert ([x] + a)[0] == x && ([x'] + a')[0] == x';
    assert ([x] + a)[1..] == a && ([x'] + a')[1..] == a';
  }

  function FirstSymbol(n: Node): Symbol {
    match n
    case Leaf(key, value) => Value(key, value)
    case StructNode(key, _) => StructOpen(key)
    case ArrayNode(key, elements) => ArrayOpen(key, |elements|)
  }

  function AfterFirst(n: Node, w: seq<Symbol>): seq<Symbol> {
    match n
    case Leaf(_, _) => w
    case StructNode(_, fields) => SpellAll(fields) + ([StructClose] + w)
    case ArrayNode(_, elements) => SpellAll(elements) + ([ArrayClose] + w)
  }

  lemma {:induction false} NodeReading(n: Node, n': Node, w: seq<Symbol>, w': seq<Symbol>)
    requires Spell(n) + w == Spell(n') + w'
    ensures n == n' && w == w'
    decreases n, 0
  {
    hide Spell, SpellAll;
    SpellParts(n, w);
    SpellParts(n', w');
    TailsEqual(FirstSymbol(n), AfterFirst(n, w), FirstSymbol(n'), AfterFirst(n', w'));
    match n
    case Leaf(_, _) =>
    case StructNode(_, fields) =>
      NodesReading(fields, n'.fields, [StructClose] + w, [StructClose] + w');
      TailsEqual(StructClose, w, StructClose, w');
    case ArrayNode(_, elements) =>
      NodesReading(elements, n'.elements, [ArrayClose] + w, [ArrayClose] + w');
      TailsEqual(ArrayClose, w, ArrayClose, w');
  }

  lemma {:induction false} NodesReading(ns: seq<Node>, ns': seq<Node>, w: seq<Symbol>, w': seq<Symbol>)
    requires SpellAll(ns) + w == SpellAll(ns') + w' && Ends(w) && Ends(w')
    ensures ns == ns' && w == w'
    decreases ns, 1
  {
    hide Spell, SpellAll;
    FrontIsAll(ns);
    FrontIsAll(ns');
    NothingEnds(ns, w);
    NothingEnds(ns', w');
    if ns != [] && ns' != [] {
      hide SpellFront;
      var rest, rest' := SpellFront(ns[1..]) + w, SpellFront(ns'[1..]) + w';
      FrontParts(ns, w);
      FrontParts(ns', w');
      NodeReading(ns[0], ns'[0], rest, rest');
      FrontIsAll(ns[1..]);
      FrontIsAll(ns'[1..]);
      NodesReading(ns[1..], ns'[1..], w, w');
    } else {
      assert [] + w == w && [] + w' == w';
    }
  }

  lemma FrontParts(ns: seq<Node>, w: seq<Symbol>)
    requires ns != []
    ensures SpellFront(ns) + w == Spell(ns[0]) + (SpellFront(ns[1..]) + w)
  {
    hide Spell;
  }

  /** Only the empty word of no node ends at once. */
  lemma NothingEnds(ns: seq<Node>, w: seq<Symbol>)
    ensures Ends(w) ==> (Ends(SpellFront(ns) + w) <==> ns == [])
  {
    hide Spell, SpellAll;
    if ns != [] {
      FrontParts(ns, w);
      SpellParts(ns[0], SpellFront(ns[1..]) + w);
    } else {
      assert SpellFront(ns) + w == w;
    }
  }

  /** What a run spells is the word of one forest only. */
  lemma SpellIsUnique(ns: seq<Node>, ns': seq<Node>)
    requires SpellAll(ns) == SpellAll(ns')
    ensures ns == ns'
  {
    assert SpellAll(ns) + [] == SpellAll(ns') + [];
    NodesReading(ns, ns', [], []);
  }

  // ---- the tree of an event's fields ----

  function KeyOf(f: Field): Label { Label(f.name, f.tag) }

  function ValueNode(f: Field, v: bytes): Node
    requires f.Leaf? && FieldTypes.IsLeaf(f.encoding)
  {
    Node.Leaf(KeyOf(f), Visible(f.encoding, v))
  }

  function ValueNodes(f: Field, vs: seq<bytes>): (r: seq<Node>)
    requires f.Leaf? && FieldTypes.IsLeaf(f.encoding)
    ensures |r| == |vs|
  {
    if vs == [] then [] else [ValueNode(f, vs[0])] + ValueNodes(f, vs[1..])
  }

  /** A field's node, with its name, its tag and what can be seen of its values. */
  function NodeOf(f: Field): Node
    requires FieldOk(f)
  {
    match f
    case Leaf(_, _, isArray, _, _, values) =>
      if isArray then ArrayNode(KeyOf(f), ValueNodes(f, values)) else ValueNode(f, values[0])
    case Struct(_, _, fields) => StructNode(KeyOf(f), NodesOf(fields))
  }

  function NodesOf(fs: seq<Field>): seq<Node>
    requires FieldsOk(fs)
  {
    if fs == [] then [] else [NodeOf(fs[0])] + NodesOf(fs[1..])
  }

  function SymbolOfItem(item: Item): seq<Symbol> {
    match item.state
    case StateValue => [Value(Label(item.name, item.tag), item.value)]
    case StateArrayBegin => [ArrayOpen(Label(item.name, item.tag), item.count)]
    case StateArrayEnd => [ArrayClose]
    case StateStructBegin => [StructOpen(Label(item.name, item.tag))]
    case StateStructEnd => [StructClose]
    case _ => []
  }

  function Symbols(items: seq<Item>): seq<Symbol> {
    if items == [] then [] else SymbolOfItem(items[0]) + Symbols(items[1..])
  }

  lemma {:induction false} SymbolsJoin(a: seq<Item>, b: seq<Item>)
    ensures Symbols(a + b) == Symbols(a) + Symbols(b)
  {
    hide SymbolOfItem;
    if a == [] {
      assert a + b == b;
    } else {
      assert (a + b)[1..] == a[1..] + b;
      SymbolsJoin(a[1..], b);
    }
  }

  lemma SymbolsOne(item: Item)
    ensures Symbols([item]) == SymbolOfItem(item)
  {
    assert [item][1..] == [];
  }

  lemma {:induction false} ValuesSpell(f: Field, vs: seq<bytes>)
    requires FieldOk(f) && f.Leaf?
    ensures Symbols(ValueItems(f, vs)) == SpellFront(ValueNodes(f, vs))
  {
    if vs != [] {
      hide Visible, TypeSize, FieldOk;
      ValuesSpell(f, vs[1..]);
      assert ValueItems(f, vs)[1..] == ValueItems(f, vs[1..]);
      assert ValueNodes(f, vs)[1..] == ValueNodes(f, vs[1..]);
    }
  }

  /** The items of a field spell its node. */
  lemma {:induction false} ItemsSpell(f: Field)
    requires FieldOk(f)
    ensures Symbols(Items(f)) == Spell(NodeOf(f))
    decreases f, 0
  {
    match f
    case Leaf(_, _, isArray, _, _, values) =>
      if isArray {
        ArrayItemsSpell(f);
      } else {
        SymbolsOne(ValueItem(f, values[0]));
      }
    case Struct(_, _, fields) =>
      hide FieldsOk;
      var begin, end := StructItem(f, StateStructBegin), StructItem(f, StateStructEnd);
      AllItemsSpell(fields);
      SymbolsJoin([begin] + ItemsAll(fields), [end]);
      SymbolsJoin([begin], ItemsAll(fields));
      SymbolsOne(begin);
      SymbolsOne(end);
  }

  lemma ArrayItemsSpell(f: Field)
    requires FieldOk(f) && f.Leaf? && f.isArray
    ensures Symbols(Items(f)) == Spell(NodeOf(f))
  {
    hide Concat, ValueItems, TypeSize, EncodingOf, Symbols, SymbolOfItem, SpellFront;
    var begin := ArrayItem(f, StateArrayBegin, if FieldTypes.IsFixed(f.encoding) then Concat(f.values) else []);
    var end := ArrayItem(f, StateArrayEnd, []);
    ValuesSpell(f, f.values);
    FrontIsAll(ValueNodes(f, f.values));
    SymbolsJoin([begin] + ValueItems(f, f.values), [end]);
    SymbolsJoin([begin], ValueItems(f, f.values));
    SymbolsOne(begin);
    SymbolsOne(end);
    EndSymbols(begin, end);
  }

  lemma EndSymbols(begin: Item, end: Item)
    requires begin.state == StateArrayBegin && end.state == StateArrayEnd
    ensures SymbolOfItem(begin) == [ArrayOpen(Label(begin.name, begin.tag), begin.count)]
    ensures SymbolOfItem(end) == [ArrayClose]
  {
  }

  lemma {:induction false} AllItemsSpell(fs: seq<Field>)
    requires FieldsOk(fs)
    ensures Symbols(ItemsAll(fs)) == SpellAll(NodesOf(fs))
    decreases fs, 1
  {
    hide FieldOk, Items, NodeOf, Spell;
    FrontIsAll(NodesOf(fs));
    if fs != [] {
      ItemsSpell(fs[0]);
      AllItemsSpell(fs[1..]);
      FrontIsAll(NodesOf(fs[1..]));
      SymbolsJoin(Items(fs[0]), ItemsAll(fs[1..]));
    }
  }

  // ---- the path to the end of an event ----

  lemma {:induction false} PathTail(ev: Event, path: seq<Core>)
    requires IsPath(ev, path) && |path| > 1
    ensures Inv(ev, path[0]) && CanMoveNext(path[0].sub) && path[1] == Step(ev, path[0])
    ensures IsPath(ev, path[1..]) && Last(path[1..]) == Last(path)
    ensures Word(ev, path) == SymbolOf(ev, path[0]) + Word(ev, path[1..])
    decreases |path|
  {
    hide Inv, Step, SymbolOf;
    var before := path[..|path| - 1];
    assert path[1..][..|path| - 2] == before[1..];
    if |path| > 2 {
      PathTail(ev, before);
    } else {
      assert path[..1][..0] == [] && path[1..][..0] == [];
      assert before == [path[0]];
    }
  }

  /** A path to the end spells the items visited on the way. */
  lemma {:induction false} PathSpellsItems(ev: Event, path: seq<Core>, items: seq<Item>, last: Core)
    requires IsPath(ev, path) && !CanMoveNext(Last(path).sub)
    requires Visits(ev, path[0], items, last) && !CanMoveNext(last.sub) && !IsItem(last.sub)
    ensures Word(ev, path) == Symbols(items)
    decreases |items|
  {
    hide Inv, Step;
    if items == [] {
      if |path| > 1 {
        PathTail(ev, path);
      }
      OnePoint(ev, last);
      assert path == [last];
    } else {
      ItemsMove(ev, path[0]);
      PathTail(ev, path);
      ObservedSymbol(ev, path[0]);
      PathSpellsItems(ev, path[1..], items[1..], last);
    }
  }

  lemma ItemsMove(ev: Event, m: Core)
    requires IsItem(m.sub)
    ensures CanMoveNext(m.sub)
  {
  }

  lemma OnePoint(ev: Event, m: Core)
    requires !IsItem(m.sub)
    ensures Word(ev, [m]) == []
  {
    assert [m][..0] == [];
  }

  lemma ObservedSymbol(ev: Event, m: Core)
    requires Inv(ev, m) && IsItem(m.sub)
    ensures SymbolOfItem(Observed(ev, m)) == SymbolOf(ev, m)
  {
    hide StackOk, SubInv, TypeOf, TypeEnd;
  }

  /**
   * For every readable event, whatever tree the decoder's path to the end spells is the tree of the
   * fields the event was built from, with their names, tags and values; so the JSON written for the event
   * is the text of that tree.
   */
  lemma TreeOfEncodedEvent(ev: Event, m: Core, fs: seq<Field>, path: seq<Core>, nodes: seq<Node>)
    requires Holds(ev, fs) && Readable(fs)
    requires IsPath(ev, path) && path[0] == Reset(ev, m) && Last(path).sub == AfterLastItem
    requires Word(ev, path[..|path| - 1]) == SpellAll(nodes)
    ensures FieldsOk(fs) && nodes == NodesOf(fs)
  {
    hide Inv, Step, MetaAll, DataAll, ItemsAll, DepthAll, AllUncut, FieldsOk, Visits, Word, SpellAll, NodesOf,
      Symbols, IsPath, SymbolOf;
    var items, last := VisitsAll(ev, m, fs);
    WholeWord(ev, path);
    TailOfReset(ev, m, path);
    PathTail(ev, path);
    PathSpellsItems(ev, path[1..], items, last);
    FieldsReached(ev, fs);
    AllItemsSpell(fs);
    SpellIsUnique(nodes, NodesOf(fs));
  }

  lemma WholeWord(ev: Event, path: seq<Core>)
    requires IsPath(ev, path) && !IsItem(Last(path).sub)
    ensures |path| > 0 && Word(ev, path) == Word(ev, path[..|path| - 1])
  {
  }

  lemma TailOfReset(ev: Event, m: Core, path: seq<Core>)
    requires IsPath(ev, path) && path[0] == Reset(ev, m) && Last(path).sub == AfterLastItem
    ensures |path| > 1 && SymbolOf(ev, path[0]) == []
  {
    hide Inv, Step;
  }

  lemma VisitsAll(ev: Event, m: Core, fs: seq<Field>) returns (items: seq<Item>, last: Core)
    requires Holds(ev, fs) && Readable(fs)
    ensures FieldsOk(fs) && items == ItemsAll(fs) && last.sub == AfterLastItem
    ensures Inv(ev, Reset(ev, m)) && Visits(ev, Step(ev, Reset(ev, m)), items, last)
  {
    hide CanRead, NextProperty, Step, MetaAll, DataAll, ItemsAll, DepthAll, AllUncut, FieldsOk, Visits, Inv, At;
    assert fs[..|fs|] == fs;
    var start := Reset(ev, m);
    ReadyForFields(ev.bigEndian, ev, m, fs, |fs|);
    var n := DecodeFields(ev, start, fs);
    EndsAfterLast(ev, n);
    items, last := ItemsAll(fs), NextProperty(ev, n);
  }
}

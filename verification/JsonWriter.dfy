/**
 * The writer that puts commas and spaces between JSON tokens, against sections 4 and 5 of RFC 8259:
 * the text of a tree of values, arrays and objects, with names and scalars opaque.
 */
module JsonWriter {
  import opened Bytes
  import opened FieldTypes
  import opened EnumeratorNesting

  /**
   * A name is a field's name and tag with quotation marks and colon; a scalar is the text of a value, which
   * is not spelled out, or, for an encoding without a size, that encoding's name.
   */
  datatype Token =
    | Comma
    | Space
    | Name(key: Label)
    | OpenBrace
    | CloseBrace
    | OpenBracket
    | CloseBracket
    | Scalar(value: bytes)
    | EncodingName

  type tokens = seq<Token>

  // ---- the text of a tree ----

  function Emit(need: bool, t: Token): tokens { if need then [t] else [] }

  /** A value: an object is a list of members in braces, an array a list of values in brackets. */
  function Body(n: Node): tokens {
    match n
    case Leaf(_, value) => [Scalar(value)]
    case StructNode(_, fields) => [OpenBrace] + List(fields, true) + [CloseBrace]
    case ArrayNode(_, elements) => [OpenBracket] + List(elements, false) + [CloseBracket]
  }

  /** Members (a name before each value) or values, separated by commas. */
  function List(ns: seq<Node>, named: bool): tokens {
    if ns == [] then []
    else
      var before := ns[..|ns| - 1];
      List(before, named) + Emit(before != [], Comma) + Emit(named, Name(ns[|ns| - 1].key)) + Body(ns[|ns| - 1])
  }

  /** The same with a comma in front, unless the list is empty. */
  function Led(lead: bool, ns: seq<Node>, named: bool): tokens {
    Emit(lead && ns != [], Comma) + List(ns, named)
  }

  /** White space is insignificant between tokens. */
  function Structure(ts: tokens): tokens {
    if ts == [] then []
    else Structure(ts[..|ts| - 1]) + if ts[|ts| - 1] == Space then [] else [ts[|ts| - 1]]
  }

  lemma {:induction false} StructureAppend(a: tokens, b: tokens)
    ensures Structure(a + b) == Structure(a) + Structure(b)
  {
    if b == [] {
      assert a + b == a;
    } else {
      assert (a + b)[..|a + b| - 1] == a + b[..|b| - 1];
      StructureAppend(a, b[..|b| - 1]);
    }
  }

  lemma StructureOne(t: Token)
    ensures Structure([t]) == if t == Space then [] else [t]
  {
  }

  // ---- the writer ----

  class JsonWriter {
    const spaceOption: bool
    var comma: bool
    var space: bool
    var out: tokens

    /** The text written, white space aside. */
    function Text(): tokens
      reads this
    {
      Structure(out)
    }

    constructor (spaceOption: bool, comma: bool)
      ensures this.comma == comma && out == [] && Text() == []
    {
      this.spaceOption := spaceOption;
      this.comma := comma;
      this.space := comma && spaceOption;
      out := [];
    }

    method Put(t: Token)
      modifies `out
      ensures out == old(out) + [t]
      ensures Text() == old(Text()) + if t == Space then [] else [t]
    {
      StructureAppend(out, [t]);
      StructureOne(t);
      out := out + [t];
    }

    method WriteRawCommaSpace()
      modifies `space, `out
      ensures Text() == old(Text()) + Emit(comma, Comma)
    {
      var needSpace := space;
      space := spaceOption;
      if needSpace {
        if comma {
          Put(Comma);
        }
        Put(Space);
      } else if comma {
        Put(Comma);
      }
    }

    method WritePropertyName(key: Label)
      modifies this
      ensures !comma && Text() == old(Text()) + Emit(old(comma), Comma) + [Name(key)]
    {
      WriteRawCommaSpace();
      comma := false;
      Put(Name(key));
    }

    /** `{` or `[` */
    method WriteBegin(t: Token)
      requires t == OpenBrace || t == OpenBracket
      modifies this
      ensures !comma && Text() == old(Text()) + Emit(old(comma), Comma) + [t]
    {
      WriteRawCommaSpace();
      comma := false;
      Put(t);
    }

    /** `}` or `]` */
    method WriteEnd(t: Token)
      requires t == CloseBrace || t == CloseBracket
      modifies this
      ensures comma && Text() == old(Text()) + [t]
    {
      comma := true;
      if space {
        Put(Space);
      }
      Put(t);
    }

    /** A scalar, or the name of an encoding. */
    method WriteValue(t: Token)
      requires t.Scalar? || t.EncodingName?
      modifies this
      ensures comma && Text() == old(Text()) + Emit(old(comma), Comma) + [t]
    {
      WriteRawCommaSpace();
      comma := true;
      Put(t);
    }

    /** An array of the values that `value` consists of; of the encoding's name, if they have no size. */
    method WriteSimpleArray(base: byte, value: bytes)
      modifies this
      ensures comma
      ensures Text() == old(Text()) + Emit(old(comma), Comma) + SimpleText(base, value)
    {
      hide FixedSize, Structure;
      WriteBegin(OpenBracket);
      if IsFixed(base) {
        WriteElements(FixedSize(base), value);
      } else {
        WriteValue(EncodingName);
      }
      WriteEnd(CloseBracket);
    }

    method WriteElements(size: nat, value: bytes)
      requires size > 0 && !comma
      modifies this
      ensures Text() == old(Text()) + Scalars(value, size, |value| / size)
    {
      hide Structure, Scalars;
      var count := |value| / size;
      NoScalars(value, size);
      for i := 0 to count
        invariant comma == (i > 0)
        invariant Text() == old(Text()) + Scalars(value, size, i)
      {
        ScalarsGrow(value, size, i);
        WriteValue(Scalar(Slice(value, i * size, size)));
      }
    }
  }

  /** The first `count` values of the given size, separated by commas. */
  function Scalars(value: bytes, size: nat, count: nat): tokens {
    if count == 0 then []
    else
      Scalars(value, size, count - 1) + Emit(count > 1, Comma) + [Scalar(Slice(value, (count - 1) * size, size))]
  }

  function SimpleText(base: byte, value: bytes): tokens {
    [OpenBracket]
    + (if IsFixed(base) then Scalars(value, FixedSize(base), |value| / FixedSize(base)) else [EncodingName])
    + [CloseBracket]
  }

  lemma NoScalars(value: bytes, size: nat)
    ensures Scalars(value, size, 0) == []
  {
  }

  lemma ScalarsGrow(value: bytes, size: nat, i: nat)
    ensures Scalars(value, size, i + 1)
         == Scalars(value, size, i) + Emit(i > 0, Comma) + [Scalar(Slice(value, i * size, size))]
  {
  }

  /** The values of an array as leaves of its name. */
  function Leaves(key: Label, value: bytes, size: nat, count: nat): (r: seq<Node>)
    ensures |r| == count
  {
    if count == 0 then []
    else Leaves(key, value, size, count - 1) + [Leaf(key, Slice(value, (count - 1) * size, size))]
  }

  lemma {:induction false} ScalarsAreLeaves(key: Label, value: bytes, size: nat, count: nat)
    ensures List(Leaves(key, value, size, count), false) == Scalars(value, size, count)
  {
    if count > 0 {
      ScalarsAreLeaves(key, value, size, count - 1);
      var ns := Leaves(key, value, size, count);
      assert ns[..count - 1] == Leaves(key, value, size, count - 1);
    }
  }
}

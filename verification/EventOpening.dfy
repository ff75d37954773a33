/**
 * Opening an event: the header, the tracepoint name and the chain of header extensions are checked
 * before enumeration may begin. `Enumerator` proves that the class computes `Open`.
 */
module EventOpening {
  import opened Bytes
  import opened EnumeratorModel
  import opened EventFraming
  import TracepointName

  /** Where the extensions found so far lie; a start of 0 means not found. */
  datatype Extents = Extents(metaStart: nat, metaEnd: nat, activityStart: nat, activityLen: nat)

  datatype ExtensionResult = Malformed | Found(extents: Extents, dataStart: nat)

  datatype OpenResult =
    | Refused(error: EnumeratorError)
    | Opened(header: EventHeader, keyword: u64, ev: Event, activityStart: nat, activityLen: nat)

  const NO_EXTENTS := Extents(0, 0, 0, 0)

  function IsBigEndian(flags: byte): bool { !HasLittleEndianFlag(flags) }

  function ReadHeader(data: bytes): EventHeader
    requires HEADER_SIZE <= |data|
  {
    var be := IsBigEndian(data[0]);
    EventHeader(data[0], data[1], ReadU16(be, data, 2), ReadU16(be, data, 4), data[6], data[7])
  }

  /** One extension block of the given kind, starting at `pos`; `Malformed` if it may not be there. */
  function Extension(x: Extents, kind: u16, pos: nat, size: u16): ExtensionResult {
    if kind % KIND_CHAIN_FLAG == KIND_INVALID then Malformed
    else if kind % KIND_CHAIN_FLAG == KIND_METADATA then
      if x.metaStart != 0 then Malformed
      else Found(x.(metaStart := pos, metaEnd := pos + size), pos + size)
    else if kind % KIND_CHAIN_FLAG == KIND_ACTIVITY_ID then
      if x.activityStart != 0 || (size != 16 && size != 32) then Malformed
      else Found(x.(activityStart := pos, activityLen := size), pos + size)
    else Found(x, pos + size)
  }

  /** The chain of extensions from `pos` on. */
  function Extensions(bigEndian: bool, data: bytes, pos: nat, x: Extents): ExtensionResult
    requires pos <= |data|
    decreases |data| - pos
  {
    if |data| - pos < EXTENSION_SIZE then Malformed
    else
      var size := ReadU16(bigEndian, data, pos);
      var kind := ReadU16(bigEndian, data, pos + 2);
      if |data| - (pos + 4) < size then Malformed
      else
        var r := Extension(x, kind, pos + 4, size);
        if r.Malformed? || kind < KIND_CHAIN_FLAG then r
        else Extensions(bigEndian, data, r.dataStart, r.extents)
  }

  /** Offset of the first zero in a range, or the range's end. */
  function FindZero(data: bytes, pos: nat, end: nat): (r: nat)
    requires pos <= end <= |data|
    ensures pos <= r <= end
    ensures r < end ==> data[r] == 0
    ensures forall i :: pos <= i < r ==> data[i] != 0
    decreases end - pos
  {
    if pos == end || data[pos] == 0 then pos else FindZero(data, pos + 1, end)
  }

  /** `enumerate_with_name_and_data`, up to the reset of the cursors. */
  function Open(name: bytes, data: bytes): OpenResult {
    if |data| < HEADER_SIZE || |data| >= 0x8000_0000 || |name| >= TracepointName.NAME_MAX then Refused(InvalidParameter)
    else
      var h := ReadHeader(data);
      if !IsKnown(h.flags) then Refused(NotSupported)
      else
        match TracepointName.ParseName(name, h.level)
        case NotSupported => Refused(NotSupported)
        case Accepted(keyword) => OpenExtensions(h, keyword, data)
  }

  function OpenExtensions(h: EventHeader, keyword: u64, data: bytes): OpenResult
    requires HEADER_SIZE <= |data|
  {
    var be := IsBigEndian(h.flags);
    var r := if HasExtensionFlag(h.flags) then Extensions(be, data, HEADER_SIZE, NO_EXTENTS)
             else Found(NO_EXTENTS, HEADER_SIZE);
    if r.Malformed? then Refused(InvalidData)
    else if r.extents.metaStart == 0 then Refused(NotSupported)
    else
      ExtentsInData(h, data);
      var x := r.extents;
      var nameEnd := FindZero(data, x.metaStart, x.metaEnd);
      if nameEnd == x.metaEnd then Refused(InvalidData)
      else
        Opened(h, keyword, Event(data, be, x.metaStart, x.metaEnd, nameEnd - x.metaStart, r.dataStart),
               x.activityStart, x.activityLen)
  }

  /** The extents found lie in order inside the bytes before the payload. */
  ghost predicate ExtentsOk(x: Extents, pos: nat) {
    && (x.metaStart == 0 || (8 <= x.metaStart <= x.metaEnd <= pos && x.metaEnd - x.metaStart <= 65535))
    && (x.activityStart == 0
        || (x.activityStart + x.activityLen <= pos && (x.activityLen == 16 || x.activityLen == 32)))
  }

  lemma {:induction false} ExtentsStayOk(bigEndian: bool, data: bytes, pos: nat, x: Extents)
    requires 8 <= pos <= |data| && ExtentsOk(x, pos)
    ensures var r := Extensions(bigEndian, data, pos, x);
            r.Found? ==> pos <= r.dataStart <= |data| && ExtentsOk(r.extents, r.dataStart)
    decreases |data| - pos
  {
    if |data| - pos >= EXTENSION_SIZE {
      var size := ReadU16(bigEndian, data, pos);
      var kind := ReadU16(bigEndian, data, pos + 2);
      if |data| - (pos + 4) >= size {
        var r := Extension(x, kind, pos + 4, size);
        if r.Found? && kind >= KIND_CHAIN_FLAG {
          ExtentsStayOk(bigEndian, data, r.dataStart, r.extents);
        }
      }
    }
  }

  lemma ExtentsInData(h: EventHeader, data: bytes)
    requires HEADER_SIZE <= |data|
    ensures var r := if HasExtensionFlag(h.flags) then Extensions(IsBigEndian(h.flags), data, HEADER_SIZE, NO_EXTENTS)
                     else Found(NO_EXTENTS, HEADER_SIZE);
            r.Found? ==> r.dataStart <= |data| && ExtentsOk(r.extents, r.dataStart)
  {
    ExtentsStayOk(IsBigEndian(h.flags), data, HEADER_SIZE, NO_EXTENTS);
  }

  /**
   * Whatever the bytes, an event that is opened has all its extents in bounds, and the state before
   * its first item satisfies the decoder's invariant.
   */
  lemma OpenedIsValid(name: bytes, data: bytes, m: Core)
    ensures var r := Open(name, data);
            r.Opened? ==>
              && r.ev.Valid() && r.ev.data == data
              && (r.activityStart != 0 ==>
                   r.activityStart + r.activityLen <= r.ev.dataStart && (r.activityLen == 16 || r.activityLen == 32))
              && Inv(r.ev, Reset(r.ev, m))
  {
    hide TracepointName.ParseName, Extensions;
    if 8 <= |data| {
      ExtentsInData(ReadHeader(data), data);
    }
  }
}

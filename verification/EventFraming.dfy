/**
 * What surrounds an event's metadata and payload: the 8-byte event header and the chain of header
 * extensions that `write_eventheader` puts in front of them.
 */
module EventFraming {
  import opened Bytes
  import opened Wrappers

  const FLAG_POINTER64: byte := 1
  const FLAG_LITTLE_ENDIAN: byte := 2
  const FLAG_EXTENSION: byte := 4

  const KIND_INVALID: u16 := 0
  const KIND_METADATA: u16 := 1
  const KIND_ACTIVITY_ID: u16 := 2
  const KIND_CHAIN_FLAG: u16 := 0x8000

  const HEADER_SIZE: nat := 8
  const EXTENSION_SIZE: nat := 4
  const ID_SIZE: nat := 16
  const WRITE_INDEX_SIZE: nat := 4
  const HEADERS_SIZE_MAX: nat := WRITE_INDEX_SIZE + HEADER_SIZE + EXTENSION_SIZE + 16 + 16 + EXTENSION_SIZE

  datatype EventHeader = EventHeader(flags: byte, version: byte, id: u16, tag: u16, opcode: byte, level: byte)

  /** The flags of an event with extensions, written by a process of the given kind. */
  function DefaultWithExtension(bigEndian: bool, pointer64: bool): (r: byte)
    ensures HasLittleEndianFlag(r) == !bigEndian && HasExtensionFlag(r) && IsKnown(r)
  {
    (if pointer64 then FLAG_POINTER64 else 0) + (if bigEndian then 0 else FLAG_LITTLE_ENDIAN) + FLAG_EXTENSION
  }

  predicate HasLittleEndianFlag(flags: byte) { flags / 2 % 2 == 1 }
  predicate HasExtensionFlag(flags: byte) { flags / 4 % 2 == 1 }

  /** No flag but the three above. */
  predicate IsKnown(flags: byte) { flags < 8 }

  function HeaderBytes(bigEndian: bool, h: EventHeader): (r: bytes)
    ensures |r| == HEADER_SIZE
  {
    [h.flags, h.version] + WriteU16(bigEndian, h.id) + WriteU16(bigEndian, h.tag) + [h.opcode, h.level]
  }

  /** `EventHeaderExtension::from_parts` */
  function ExtensionBytes(bigEndian: bool, size: u16, kind: u16, chain: bool): (r: bytes)
    requires kind < KIND_CHAIN_FLAG
    ensures |r| == EXTENSION_SIZE
  {
    WriteU16(bigEndian, size) + WriteU16(bigEndian, if chain then kind + KIND_CHAIN_FLAG else kind)
  }

  /** The activity id section: empty, one id, or an id and the id it is related to. */
  function ActivitySection(activityId: Option<bytes>, relatedId: Option<bytes>): bytes {
    match activityId
    case None => []
    case Some(aid) => if relatedId.Some? then aid + relatedId.value else aid
  }

  /** The activity extension, if the event is part of an activity. */
  function ActivityBlock(bigEndian: bool, activity: bytes, chain: bool): bytes
    requires |activity| <= 2 * ID_SIZE
  {
    if activity == [] then [] else ExtensionBytes(bigEndian, |activity|, KIND_ACTIVITY_ID, chain) + activity
  }

  /** The header of the metadata extension; the metadata itself follows. */
  function MetadataHeader(bigEndian: bool, metaLen: u16): bytes {
    if metaLen == 0 then [] else ExtensionBytes(bigEndian, metaLen, KIND_METADATA, false)
  }

  /** What precedes the metadata. */
  function Prologue(bigEndian: bool, h: EventHeader, activity: bytes, metaLen: u16): bytes
    requires |activity| <= 2 * ID_SIZE
  {
    HeaderBytes(bigEndian, h)
    + ActivityBlock(bigEndian, activity, metaLen != 0)
    + MetadataHeader(bigEndian, metaLen)
  }

  /** A whole event, as its consumer receives it. */
  function EventBytes(bigEndian: bool, h: EventHeader, activity: bytes, meta: bytes, data: bytes): bytes
    requires |activity| <= 2 * ID_SIZE && |meta| <= 65535
  {
    Prologue(bigEndian, h, activity, |meta|) + (meta + data)
  }

  /** `append_bytes`: copies a structure into the header buffer. */
  method AppendBytes(headers: array<byte>, at: nat, part: bytes) returns (end: nat)
    requires at + |part| <= headers.Length
    modifies headers
    ensures end == at + |part|
    ensures headers[..end] == old(headers[..at]) + part
  {
    forall i | 0 <= i < |part| {
      headers[at + i] := part[i];
    }
    end := at + |part|;
  }

  method AppendActivity(headers: array<byte>, at: nat, bigEndian: bool,
                        activityId: Option<bytes>, relatedId: Option<bytes>, chain: bool) returns (end: nat)
    requires activityId.Some? && |activityId.value| == ID_SIZE
    requires relatedId.Some? ==> |relatedId.value| == ID_SIZE
    requires at + EXTENSION_SIZE + 2 * ID_SIZE <= headers.Length
    modifies headers
    ensures end <= at + EXTENSION_SIZE + 2 * ID_SIZE
    ensures headers[..end]
            == old(headers[..at]) + ActivityBlock(bigEndian, ActivitySection(activityId, relatedId), chain)
  {
    hide ExtensionBytes;
    if relatedId.None? {
      end := AppendBytes(headers, at, ExtensionBytes(bigEndian, 16, KIND_ACTIVITY_ID, chain));
      end := AppendBytes(headers, end, activityId.value);
    } else {
      end := AppendBytes(headers, at, ExtensionBytes(bigEndian, 32, KIND_ACTIVITY_ID, chain));
      end := AppendBytes(headers, end, activityId.value);
      end := AppendBytes(headers, end, relatedId.value);
    }
  }

  /**
   * The bytes handed to the kernel: write index, headers, then the caller's blocks. The headers
   * never outgrow their buffer.
   */
  method WriteEventHeader(bigEndian: bool, pointer64: bool, writeIndex: bytes, h: EventHeader,
                          activityId: Option<bytes>, relatedId: Option<bytes>, metaLen: u16, blocks: bytes)
    returns (sent: bytes)
    requires |writeIndex| == WRITE_INDEX_SIZE
    requires relatedId.None? || activityId.Some?
    requires (activityId.None? && metaLen == 0) || h.flags == DefaultWithExtension(bigEndian, pointer64)
    requires activityId.Some? ==> |activityId.value| == ID_SIZE
    requires relatedId.Some? ==> |relatedId.value| == ID_SIZE
    ensures sent == writeIndex + Prologue(bigEndian, h, ActivitySection(activityId, relatedId), metaLen) + blocks
    ensures |sent| <= HEADERS_SIZE_MAX + |blocks|
  {
    hide HeaderBytes, ExtensionBytes, ActivityBlock, DefaultWithExtension;
    ghost var activity := ActivitySection(activityId, relatedId);
    var extensionCount := (if activityId.Some? then 1 else 0) + (if metaLen != 0 then 1 else 0);
    var headers := new byte[HEADERS_SIZE_MAX](_ => 0);
    var end := AppendBytes(headers, 0, writeIndex);
    end := AppendBytes(headers, end, HeaderBytes(bigEndian, h));
    ghost var before := headers[..end];
    if activityId.Some? {
      extensionCount := extensionCount - 1;
      end := AppendActivity(headers, end, bigEndian, activityId, relatedId, extensionCount > 0);
    } else {
      NoActivity(bigEndian, metaLen != 0);
    }
    assert headers[..end] == before + ActivityBlock(bigEndian, activity, metaLen != 0);
    if metaLen != 0 {
      extensionCount := extensionCount - 1;
      end := AppendBytes(headers, end, ExtensionBytes(bigEndian, metaLen, KIND_METADATA, extensionCount > 0));
    }
    PrologueParts(writeIndex, bigEndian, h, activity, metaLen);
    sent := headers[..end] + blocks;
  }

  lemma NoActivity(bigEndian: bool, chain: bool)
    ensures ActivityBlock(bigEndian, [], chain) == []
  {
  }

  lemma PrologueParts(writeIndex: bytes, bigEndian: bool, h: EventHeader, activity: bytes, metaLen: u16)
    requires |activity| <= 2 * ID_SIZE
    ensures writeIndex + Prologue(bigEndian, h, activity, metaLen)
         == [] + writeIndex + HeaderBytes(bigEndian, h) + ActivityBlock(bigEndian, activity, metaLen != 0)
            + MetadataHeader(bigEndian, metaLen)
  {
    hide HeaderBytes, ExtensionBytes, ActivityBlock, MetadataHeader;
  }
}

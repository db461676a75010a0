/**
 * Values shared by the ASF (Advanced Systems Format) parser and frame reader:
 * little-endian fields, the C integer conversions the parser relies on, the
 * payload records of data packets (section 5.2 of the ASF specification) and
 * the pieces of the format's support code that live in asf.h, which is not
 * part of this model. Those pieces (the GUID registry, the validators and the
 * packet decoder) are given to the model as function values in `Hooks`.
 */
module AsfCore {

  datatype Option<T> = None | Some(value: T)

  const TwoTo31: int := 0x8000_0000
  const TwoTo32: int := 0x1_0000_0000
  const TwoTo64: int := 0x1_0000_0000_0000_0000

  /** Conversion of an integer to `uint32_t` (wrap-around modulo 2^32). */
  function UInt32(x: int): (r: int)
    ensures 0 <= r < TwoTo32
    ensures 0 <= x < TwoTo32 ==> r == x
  {
    x % TwoTo32
  }

  /** Conversion of an integer to a 32-bit `int`, two's complement wrap-around. */
  function Int32(x: int): (r: int)
    ensures -TwoTo31 <= r < TwoTo31
    ensures -TwoTo31 <= x < TwoTo31 ==> r == x
  {
    var u := x % TwoTo32;
    if u < TwoTo31 then u else u - TwoTo32
  }

  /** The unsigned value of bytes stored least significant first. */
  function LittleEndian(b: seq<bv8>): nat
  {
    if b == [] then 0 else b[0] as nat + 256 * LittleEndian(b[1..])
  }

  /** A little-endian field of `width` bytes at `offset` of a raw object; 0 if it lies outside it. */
  function Field(bytes: seq<bv8>, offset: nat, width: nat): nat
  {
    if offset + width <= |bytes| then LittleEndian(bytes[offset..offset + width]) else 0
  }

  /** Decimal text of an integer, as `%i` prints it. */
  function IntToString(n: int): (s: string)
    decreases if n < 0 then 1 - n else n
  {
    if n < 0 then "-" + IntToString(-n)
    else if n < 10 then [(('0' as int) + n) as char]
    else IntToString(n / 10) + [(('0' as int) + n % 10) as char]
  }

  // Sizes of the fixed structures, as laid out in the ASF specification.
  const GuidSize: nat := 16
  /** `sizeof (asf_object)`: the GUID and 64-bit size every object starts with. */
  const ObjectEnvelopeSize: nat := 24
  /** `sizeof (asf_header)`: envelope, object count and two reserved bytes (section 3.1, the header object). */
  const HeaderPreambleSize: nat := 30
  /** `sizeof (asf_data)`: envelope, file id, packet count and reserved word (section 5.1). */
  const DataObjectSize: nat := 50
  /** `sizeof (asf_single_payload *)` on the 64-bit platforms the model assumes. */
  const PointerSize: nat := 8

  /** Object kinds the GUID registry (`asf_get_guid_type`) tells apart. */
  datatype Kind =
    | Unrecognized            // ASF_NONE
    | HeaderKind
    | FilePropertiesKind
    | StreamPropertiesKind
    | HeaderExtensionKind
    | MarkerKind
    | ScriptCommandKind
    | DataKind
    | MediaCommandKind        // the stream type of embedded script commands
    | OtherKind               // any other GUID the registry knows

  /** One payload record of a data packet. */
  datatype Payload = Payload(
    streamId: int,
    mediaObjectNumber: int,
    presentationTime: int,
    isKeyFrame: bool,
    data: seq<bv8>)

  /** `payload_data_length`. */
  function DataLength(p: Payload): nat {
    |p.data|
  }

  /** What the packet decoder yields: the payload records and the bytes the packet occupied. */
  datatype Decoded = Decoded(payloads: seq<Payload>, length: nat)

  /**
   * The routines of asf.h the core calls. `decodePacket` stands for the
   * error-correction data, payload-parsing information and multiple-payload
   * readers applied to the bytes from the current position on.
   */
  datatype Hooks = Hooks(
    guidType: seq<bv8> -> Kind,
    guidText: seq<bv8> -> string,
    validateHeader: seq<bv8> -> Validation,
    validateObject: seq<bv8> -> Validation,
    decodePacket: seq<bv8> -> Option<Decoded>)

  /**
   * What `asf_header_validate` and `asf_object_validate_exact` decide. They are
   * handed the parser, so a rejection may add messages to its error chain.
   */
  datatype Validation = Validated | Invalid(messages: seq<string>)

  /** The messages a validator adds to the parser's chain: none when it accepts. */
  function Complaints(v: Validation): seq<string> {
    if v.Validated? then [] else v.messages
  }

  /** A header object as read: its GUID, its declared size and its raw bytes. */
  datatype HeaderObject = HeaderObject(id: seq<bv8>, size: nat, bytes: seq<bv8>)

  /** Stream number of a stream-properties object: low 7 bits of the flags word at offset 72 (section 3.3). */
  function StreamNumber(obj: HeaderObject): (n: int)
    ensures 0 <= n < 128
  {
    Field(obj.bytes, 72, 2) % 128
  }

  /** Stream type GUID of a stream-properties object (offset 24, section 3.3). */
  function StreamType(obj: HeaderObject): seq<bv8>
  {
    if |obj.bytes| >= 40 then obj.bytes[24..40] else []
  }

  /** File-properties fields (section 3.2): data packet count, preroll, minimum packet size. */
  function DataPacketCount(fp: HeaderObject): nat { Field(fp.bytes, 56, 8) }
  function Preroll(fp: HeaderObject): nat { Field(fp.bytes, 80, 8) }
  function MinPacketSize(fp: HeaderObject): nat { Field(fp.bytes, 92, 4) }

  lemma LittleEndianBound(b: seq<bv8>, n: nat)
    requires |b| == n
    ensures LittleEndian(b) < Pow256(n)
  {
    if b != [] { LittleEndianBound(b[1..], n - 1); }
  }

  function Pow256(n: nat): (r: nat)
    ensures r > 0
  {
    if n == 0 then 1 else 256 * Pow256(n - 1)
  }
}

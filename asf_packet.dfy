/**
 * Data packets: the payload lookups of `ASFPacket` and the outcome of
 * `ASFParser::ReadPacket` on a byte sequence. The packet's internal layout
 * (error-correction data, payload-parsing information, payload records) is
 * read by the decoder given in `Hooks`.
 */
module AsfPacket {
  import opened AsfCore
  import opened AsfLayout

  /** `ASFPacket`: `payloads` is NULL until a packet has been read into it. */
  datatype Packet = Packet(payloads: Option<seq<Payload>>)

  const NoPts: int := TwoTo64 - 1   // ULLONG_MAX

  /** `GetPayloadCount`: 0 for a packet without payloads. */
  function GetPayloadCount(p: Packet): (n: nat)
    ensures p.payloads.None? ==> n == 0
    ensures p.payloads.Some? ==> n == |p.payloads.value|
  {
    if p.payloads.None? then 0 else |p.payloads.value|
  }

  /** `GetPayload`: the payload at a 0-based index, NULL outside the packet. */
  function GetPayload(p: Packet, index: int): (r: Option<Payload>)
    ensures r.Some? <==> 0 <= index < GetPayloadCount(p)
    ensures r.Some? ==> r.value == p.payloads.value[index]
  {
    if 0 <= index < GetPayloadCount(p) then Some(p.payloads.value[index]) else None
  }

  /** `GetFirstPayload`: scan the NULL-terminated payload list for the first payload of a stream. */
  method GetFirstPayload(p: Packet, streamId: int) returns (r: Option<Payload>)
    ensures p.payloads.None? ==> r.None?
    ensures r.None? ==>
      (p.payloads.None? || forall k :: 0 <= k < |p.payloads.value| ==> p.payloads.value[k].streamId != streamId)
    ensures r.Some? ==>
      (p.payloads.Some? &&
       exists k :: 0 <= k < |p.payloads.value| && p.payloads.value[k] == r.value &&
         r.value.streamId == streamId &&
         forall j :: 0 <= j < k ==> p.payloads.value[j].streamId != streamId)
  {
    if p.payloads.None? {
      return None;
    }
    var ps := p.payloads.value;
    var index := 0;
    while index < |ps|
      invariant 0 <= index <= |ps|
      invariant forall j :: 0 <= j < index ==> ps[j].streamId != streamId
    {
      if ps[index].streamId == streamId {
        return Some(ps[index]);
      }
      index := index + 1;
    }
    return None;
  }

  /** The presentation time of the first payload of a stream among `ps`, ULLONG_MAX when there is none. */
  function FirstPts(ps: seq<Payload>, streamId: int): (pts: int)
    ensures (forall k :: 0 <= k < |ps| ==> ps[k].streamId != streamId) ==> pts == NoPts
    ensures forall k ::
      (0 <= k < |ps| && ps[k].streamId == streamId && (forall j :: 0 <= j < k ==> ps[j].streamId != streamId) ==>
       pts == ps[k].presentationTime)
  {
    if ps == [] then NoPts
    else if ps[0].streamId == streamId then ps[0].presentationTime
    else FirstPts(ps[1..], streamId)
  }

  /** `GetPts`: presentation time of the stream's first payload, ULLONG_MAX when there is none. */
  method GetPts(p: Packet, streamId: int) returns (pts: int)
    ensures pts == if p.payloads.None? then NoPts else FirstPts(p.payloads.value, streamId)
    ensures (p.payloads.None? || forall k :: 0 <= k < |p.payloads.value| ==> p.payloads.value[k].streamId != streamId)
      ==> pts == NoPts
    ensures p.payloads.Some? && (exists k :: 0 <= k < |p.payloads.value| && p.payloads.value[k].streamId == streamId) ==>
      exists k :: 0 <= k < |p.payloads.value| && p.payloads.value[k].streamId == streamId &&
        pts == p.payloads.value[k].presentationTime &&
        forall j :: 0 <= j < k ==> p.payloads.value[j].streamId != streamId
  {
    if p.payloads.None? {
      return NoPts;
    }
    var first := GetFirstPayload(p, streamId);
    if first.None? {
      return NoPts;
    }
    return first.value.presentationTime;
  }

  /** Outcome of reading one packet: success, its payloads and the source position afterwards. */
  datatype PacketRead = PacketRead(ok: bool, payloads: seq<Payload>, pos: nat)

  /**
   * Decoding a packet at byte position `at`. The decoder always reads at least
   * the error-correction flags byte, so a packet of no bytes, or one that runs
   * past the end of the data, is a failed read.
   */
  function DecodeAt(decode: seq<bv8> -> Option<Decoded>, data: seq<bv8>, at: nat): (r: PacketRead)
    requires at <= |data|
    ensures r.pos <= |data|
    ensures r.ok ==> at < r.pos
    ensures !r.ok ==> r.payloads == [] && r.pos == at
  {
    match decode(data[at..])
    case None => PacketRead(false, [], at)
    case Some(d) =>
      if d.length == 0 || at + d.length > |data| then PacketRead(false, [], at)
      else PacketRead(true, d.payloads, at + d.length)
  }

  /**
   * `ReadPacket (packet, packet_index)`: a non-negative index is turned into an
   * offset (0, that is failure, for an index outside the packets) and the
   * source is moved there unless it is already there; a negative index reads
   * at the current position. OK only when every read succeeds.
   */
  function ReadPacketAt(decode: seq<bv8> -> Option<Decoded>, data: seq<bv8>, seekable: bool,
                        pos: nat, l: Layout, index: int): (r: PacketRead)
    requires pos <= |data|
    ensures r.pos <= |data|
    ensures index >= 0 && PacketOffset(l, index) == 0 ==> !r.ok && r.pos == pos
    ensures r.ok && index >= 0 ==> PacketOffset(l, index) < r.pos
    ensures r.ok && index < 0 ==> pos < r.pos
    ensures !seekable && r.ok ==> pos < r.pos
    ensures !r.ok ==> r.payloads == []
    ensures index < 0 ==> r == DecodeAt(decode, data, pos)
    ensures index >= 0 && PacketOffset(l, index) != 0 && Reachable(data, seekable, pos, PacketOffset(l, index)) ==>
      r == DecodeAt(decode, data, PacketOffset(l, index))
    ensures index >= 0 && !Reachable(data, seekable, pos, PacketOffset(l, index)) ==> r == PacketRead(false, [], pos)
  {
    if index >= 0 then
      var position := PacketOffset(l, index);
      if position == 0 then PacketRead(false, [], pos)
      else if position == pos then DecodeAt(decode, data, pos)
      else if seekable && 0 <= position <= |data| then DecodeAt(decode, data, position)
      else PacketRead(false, [], pos)
    else DecodeAt(decode, data, pos)
  }

  /** A position the source can stand at next: where it is, or anywhere in the data when it can seek. */
  predicate Reachable(data: seq<bv8>, seekable: bool, pos: nat, target: int) {
    target == pos || (seekable && 0 <= target <= |data|)
  }

  /**
   * A packet read by a valid index of the layout `ReadHeader` computes is
   * decoded from `packet_offset + index * min_packet_size`, the header size
   * plus the 50-byte data object plus the packets before it.
   */
  lemma ReadPacketByIndex(decode: seq<bv8> -> Option<Decoded>, data: seq<bv8>, seekable: bool, pos: nat,
                          headerSize: nat, count: nat, minSize: nat, index: int)
    requires pos <= |data| && 0 <= index < Int32(count)
    requires Reachable(data, seekable, pos, headerSize + DataObjectSize + index * minSize)
    ensures headerSize + DataObjectSize + index * minSize <= |data|
    ensures ReadPacketAt(decode, data, seekable, pos, LayoutOf(headerSize, count, minSize), index) ==
      DecodeAt(decode, data, headerSize + DataObjectSize + index * minSize)
  {
    var l := LayoutOf(headerSize, count, minSize);
    assert PacketOffset(l, index) == headerSize + DataObjectSize + index * minSize > 0;
  }

  /** Where `GetPacketIndexOfPts` ends: the index it returns and the source position. */
  datatype PtsScan = PtsScan(index: int, pos: nat)

  /**
   * The loop of `GetPacketIndexOfPts` from packet `result` on: read the
   * packet; stop with -1 when it cannot be read or has no payload of the
   * stream, stop with the index before it when the stream's pts passes `pts`,
   * and go on with the next packet otherwise. The loop ends because no index
   * past the packet count can be read.
   */
  function IndexOfPts(decode: seq<bv8> -> Option<Decoded>, data: seq<bv8>, seekable: bool, pos: nat,
                      l: Layout, streamId: int, pts: int, result: int): (r: PtsScan)
    requires pos <= |data| && result >= 0
    ensures r.pos <= |data|
    decreases Int32(l.packetCount) - result
  {
    var rd := ReadPacketAt(decode, data, seekable, pos, l, result);
    if !rd.ok then PtsScan(-1, rd.pos)
    else
      var current := FirstPts(rd.payloads, streamId);
      if current == NoPts then PtsScan(-1, rd.pos)
      else if current > pts then PtsScan(result - 1, rd.pos)
      else IndexOfPts(decode, data, seekable, rd.pos, l, streamId, pts, result + 1)
  }

  /** The stream's pts in packet `i` of a seekable source; None when that packet cannot be read. */
  function PtsAt(decode: seq<bv8> -> Option<Decoded>, data: seq<bv8>, l: Layout, streamId: int, i: int): Option<int>
    requires i >= 0
  {
    var rd := ReadPacketAt(decode, data, true, 0, l, i);
    if rd.ok then Some(FirstPts(rd.payloads, streamId)) else None
  }

  /** Packet `i` reads and has a payload of the stream whose pts does not pass `pts`. */
  predicate Below(decode: seq<bv8> -> Option<Decoded>, data: seq<bv8>, l: Layout, streamId: int, pts: int, i: int)
    requires i >= 0
  {
    var v := PtsAt(decode, data, l, streamId, i); v.Some? && v.value != NoPts && v.value <= pts
  }

  /** Packet `i` reads and has a payload of the stream whose pts passes `pts`. */
  predicate Passes(decode: seq<bv8> -> Option<Decoded>, data: seq<bv8>, l: Layout, streamId: int, pts: int, i: int)
    requires i >= 0
  {
    var v := PtsAt(decode, data, l, streamId, i); v.Some? && v.value != NoPts && v.value > pts
  }

  /** On a seekable source a packet read by index does not depend on where the source stood. */
  lemma SeekableReadAnywhere(decode: seq<bv8> -> Option<Decoded>, data: seq<bv8>, pos: nat, l: Layout, i: int)
    requires pos <= |data| && i >= 0
    ensures var r1, r2 := ReadPacketAt(decode, data, true, pos, l, i), ReadPacketAt(decode, data, true, 0, l, i);
      r1.ok == r2.ok && r1.payloads == r2.payloads
  {
  }

  /**
   * On a seekable source the scan stops at the first packet `j` from `result`
   * on that is not below `pts`, and returns `j - 1` when packet `j` passes
   * `pts`, -1 when it cannot be read or lacks the stream.
   */
  lemma {:induction false} IndexOfPtsStops(decode: seq<bv8> -> Option<Decoded>, data: seq<bv8>, pos: nat,
                                           l: Layout, streamId: int, pts: int, result: int)
    requires pos <= |data| && result >= 0
    ensures exists j ::
      (result <= j && (forall i :: result <= i < j ==> Below(decode, data, l, streamId, pts, i)) &&
       !Below(decode, data, l, streamId, pts, j) &&
       IndexOfPts(decode, data, true, pos, l, streamId, pts, result).index ==
         (if Passes(decode, data, l, streamId, pts, j) then j - 1 else -1))
    decreases Int32(l.packetCount) - result
  {
    SeekableReadAnywhere(decode, data, pos, l, result);
    var rd := ReadPacketAt(decode, data, true, pos, l, result);
    if Below(decode, data, l, streamId, pts, result) {
      IndexOfPtsStops(decode, data, rd.pos, l, streamId, pts, result + 1);
      var j :| result + 1 <= j && (forall i :: result + 1 <= i < j ==> Below(decode, data, l, streamId, pts, i)) &&
        !Below(decode, data, l, streamId, pts, j) &&
        IndexOfPts(decode, data, true, rd.pos, l, streamId, pts, result + 1).index ==
          (if Passes(decode, data, l, streamId, pts, j) then j - 1 else -1);
      assert forall i :: result <= i < j ==> Below(decode, data, l, streamId, pts, i);
    } else {
      assert !Below(decode, data, l, streamId, pts, result);
    }
  }

  /**
   * `GetPacketIndexOfPts` as written: it hands a NULL packet to `ReadPacket`,
   * whose success path stores the payloads through that pointer. None stands
   * for that NULL dereference; with a first packet that cannot be read the
   * result is -1.
   */
  function IndexOfPtsAsWritten(decode: seq<bv8> -> Option<Decoded>, data: seq<bv8>, seekable: bool, pos: nat,
                               l: Layout): Option<int>
    requires pos <= |data|
  {
    if ReadPacketAt(decode, data, seekable, pos, l, 0).ok then None else Some(-1)
  }

  /** A decoder that reads one byte per packet: one payload of stream 1, pts 5 for a 0 byte, 9 otherwise. */
  function OneBytePackets(b: seq<bv8>): Option<Decoded> {
    if |b| == 0 then None
    else Some(Decoded([Payload(1, 0, if b[0] == 0 then 5 else 9, true, [])], 1))
  }

  /**
   * Two one-byte packets with pts 5 and 9, asked for pts 6: the scan as
   * intended answers packet 0, the code as written dereferences NULL on the
   * first packet it reads.
   */
  lemma AsWrittenDereferencesNull()
    ensures var data := seq(52, i => if i == 51 then 1 as bv8 else 0 as bv8);
      var l := LayoutOf(0, 2, 1);
      IndexOfPtsAsWritten(OneBytePackets, data, true, 0, l) == None &&
      IndexOfPts(OneBytePackets, data, true, 0, l, 1, 6, 0).index == 0
  {
    var data := seq(52, i => if i == 51 then 1 as bv8 else 0 as bv8);
    var l := LayoutOf(0, 2, 1);
    assert data[50..][0] == 0 && data[51..][0] == 1;
    var r0 := ReadPacketAt(OneBytePackets, data, true, 0, l, 0);
    assert r0.ok && r0.payloads == [Payload(1, 0, 5, true, [])] && r0.pos == 51;
    var r1 := ReadPacketAt(OneBytePackets, data, true, 51, l, 1);
    assert r1.ok && r1.payloads == [Payload(1, 0, 9, true, [])];
  }
}

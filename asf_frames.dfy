/**
 * `ASFFrameReader` as functions on values. The reader keeps a queue of
 * payloads read from packets (`first` .. `last`), a packet cursor, and the
 * payload list of the current frame, which `ResizeList` grows. `Advance`
 * walks the queue, moving the payloads of one media object of one stream
 * into the frame and fetching packets as the queue runs dry; frames of the
 * script-command stream are handed to the embedder's callback and skipped.
 * `Seek` counts frames from the first packet and then replays that count.
 *
 * The functions here are the specification the `FrameReader` class is
 * proved against.
 */
module AsfFrames {
  import opened AsfCore
  import opened AsfLayout
  import opened AsfPacket
  import opened AsfParser

  /**
   * What stays fixed while frames are read: the packet decoder, the source's
   * bytes and seekability, the packet layout, the header that bounds every
   * allocation, and whether the embedder set a script-command callback.
   */
  datatype Env = Env(decode: seq<bv8> -> Option<Decoded>, data: seq<bv8>, seekable: bool,
                     layout: Layout, header: Option<seq<bv8>>, callback: bool)

  /** `current_packet_index`, the source position and `eof`. */
  datatype Cursor = Cursor(index: int, pos: nat, eof: bool)

  /** A call of the script-command callback: type and text as UTF-16 units (each with its NUL), and the pts. */
  datatype Command = Command(kind: seq<int>, text: seq<int>, pts: int)

  /**
   * The reader's state: cursor, queue, the frame's payloads, whether the
   * payload list exists (`payloads != NULL`) and its capacity
   * (`payloads_size`), `size`, `script_command_stream_index`, `first_pts`,
   * and the callback calls made so far.
   */
  datatype Reader = Reader(cursor: Cursor, queue: seq<Payload>, frame: seq<Payload>, hasList: bool,
                           capacity: int, size: int, scriptIndex: int, firstPts: int, commands: seq<Command>)

  // ---------------------------------------------------------------------
  // The current frame

  /** `Pts ()`, `StreamId ()` and `IsKeyFrame ()`: fields of the frame's first payload; 0 and false for an empty frame. */
  function PtsOf(frame: seq<Payload>): int {
    if frame == [] then 0 else frame[0].presentationTime
  }

  function StreamIdOf(frame: seq<Payload>): int {
    if frame == [] then 0 else frame[0].streamId
  }

  function IsKeyFrameOf(frame: seq<Payload>): bool {
    frame != [] && frame[0].isKeyFrame
  }

  /** Total payload length of a frame. */
  function SumLengths(frame: seq<Payload>): nat {
    if frame == [] then 0 else SumLengths(frame[..|frame| - 1]) + DataLength(frame[|frame| - 1])
  }

  /** The payload bytes of a frame, one after the other, as `Write` copies them. */
  function Concat(frame: seq<Payload>): seq<bv8> {
    if frame == [] then [] else Concat(frame[..|frame| - 1]) + frame[|frame| - 1].data
  }

  lemma {:induction false} ConcatLength(frame: seq<Payload>)
    ensures |Concat(frame)| == SumLengths(frame)
  {
    if frame != [] {
      ConcatLength(frame[..|frame| - 1]);
    }
  }

  // ---------------------------------------------------------------------
  // ReadMore

  /** Outcome of `ReadMore`: success, the packet's payloads and the new cursor. */
  datatype More = More(ok: bool, payloads: seq<Payload>, cursor: Cursor)

  /**
   * `ReadMore`: at the end (`(uint32_t) current_packet_index >= packet
   * count`) set `eof` and fail; otherwise read the packet at the cursor,
   * failing when that read fails, and step the cursor only for a seekable
   * source.
   */
  function ReadMoreF(env: Env, c: Cursor): (m: More)
    requires c.pos <= |env.data|
    ensures m.cursor.pos <= |env.data|
    ensures c.index <= m.cursor.index
    ensures !m.ok ==> m.payloads == []
  {
    if UInt32(c.index) >= env.layout.packetCount then More(false, [], Cursor(c.index, c.pos, true))
    else
      var r := ReadPacketAt(env.decode, env.data, env.seekable, c.pos, env.layout, c.index);
      if !r.ok then More(false, [], Cursor(c.index, r.pos, c.eof))
      else More(true, r.payloads, Cursor(if env.seekable then c.index + 1 else c.index, r.pos, c.eof))
  }

  /**
   * An unseekable source starts the reader at packet index -1, which
   * `ReadMore` never steps, and `(uint32_t) -1` is not below any packet
   * count under 2^32: such a reader is at its end before it reads a packet.
   */
  lemma UnseekableReadsNothing(env: Env, c: Cursor)
    requires !env.seekable && c.index == -1 && c.pos <= |env.data|
    ensures var m := ReadMoreF(env, c); m.cursor.index == -1 && m.cursor.pos <= |env.data|
    ensures env.layout.packetCount < TwoTo32 ==> ReadMoreF(env, c) == More(false, [], c.(eof := true))
  {
  }

  /**
   * What is left to read: for a seekable source the packet indices below
   * 2^31 (`GetPacketOffset` refuses larger ones), otherwise the bytes after
   * the position.
   */
  function Budget(env: Env, c: Cursor): nat {
    if env.seekable then (if c.index <= TwoTo31 then TwoTo31 - c.index else 0)
    else if c.pos <= |env.data| then |env.data| - c.pos else 0
  }

  /** A successful `ReadMore` uses up budget; a failed one leaves it as it was. */
  lemma ReadMoreBudget(env: Env, c: Cursor)
    requires c.pos <= |env.data|
    ensures var m := ReadMoreF(env, c);
      (m.ok ==> Budget(env, m.cursor) < Budget(env, c)) &&
      (!m.ok ==> Budget(env, m.cursor) == Budget(env, c))
  {
    var m := ReadMoreF(env, c);
    if UInt32(c.index) < env.layout.packetCount {
      var r := ReadPacketAt(env.decode, env.data, env.seekable, c.pos, env.layout, c.index);
      if env.seekable && r.ok && c.index >= 0 {
        assert PacketOffset(env.layout, c.index) != 0;
      }
    }
  }

  // ---------------------------------------------------------------------
  // ResizeList

  /** `sizeof (asf_single_payload *) * (size + 1)`, as the `uint32_t` `Malloc` takes. */
  function ListBytes(size: int): nat {
    UInt32(PointerSize * (size + 1))
  }

  /** Outcome of `ResizeList`: success, whether the list exists, its capacity, and the errors `Malloc` adds. */
  datatype Alloc = Alloc(ok: bool, hasList: bool, capacity: int, errors: seq<string>)

  /**
   * `ResizeList (size)`: nothing to do when the capacity already covers a
   * positive size; otherwise a list of `size + 1` pointers must be granted by
   * the parser's `Malloc`, and then it replaces the old one.
   */
  function ResizeF(env: Env, hasList: bool, capacity: int, size: int): (a: Alloc)
    ensures a.ok ==> a.capacity >= size && (a.capacity == capacity || a.hasList)
    ensures a.ok && size > 0 && a.capacity != capacity ==> a.capacity == size
    ensures a.ok ==> a.errors == []
    ensures !a.ok ==> a.hasList == hasList && a.capacity == capacity
  {
    if capacity >= size && size > 0 then Alloc(true, hasList, capacity, [])
    else if MallocAccepts(env.header, ListBytes(size)) then Alloc(true, true, size, [])
    else Alloc(false, hasList, capacity, MallocErrors(env.header, ListBytes(size)))
  }

  // ---------------------------------------------------------------------
  // The walk of Advance

  /**
   * The walk's variables: cursor, queue, `current` as an index into the
   * queue, the stream it is locked to (0: none yet), the frame so far, its
   * media object number, the list's capacity, `size`, errors added, and the
   * payloads fetched by `ReadMore` during the walk.
   */
  datatype Walk = Walk(cursor: Cursor, queue: seq<Payload>, at: nat, target: int, frame: seq<Payload>,
                       objectNumber: int, capacity: int, size: int, errors: seq<string>, arrived: seq<Payload>)

  /** How a walk ended: `ok` false when the list could not grow. */
  datatype WalkEnd = WalkEnd(ok: bool, w: Walk)

  predicate WalkIn(env: Env, w: Walk) {
    w.cursor.pos <= |env.data| && w.at <= |w.queue| && 0 <= w.capacity
  }

  /** Whether a payload belongs to the frame's stream (every stream matches while none is locked). */
  predicate Matches(p: Payload, target: int) {
    target == 0 || p.streamId == target
  }

  /**
   * The loop of `Advance`. Past the end of the queue, read a packet and go
   * on with its payloads, or end the frame if there is none. A payload of the
   * frame's stream ends the frame when its media object number differs from
   * the frame's; otherwise it locks the stream, joins the frame (the list
   * grows to `count + 3` when full) and leaves the queue. Other payloads are
   * passed over.
   */
  function WalkF(env: Env, w: Walk): (r: WalkEnd)
    requires WalkIn(env, w)
    ensures WalkIn(env, r.w)
    ensures w.cursor.index <= r.w.cursor.index
    ensures Budget(env, r.w.cursor) <= Budget(env, w.cursor)
    ensures Budget(env, r.w.cursor) == Budget(env, w.cursor) ==>
      |r.w.queue| + |r.w.frame| == |w.queue| + |w.frame|
    decreases Budget(env, w.cursor), |w.queue| - w.at
  {
    if w.at == |w.queue| then
      var m := ReadMoreF(env, w.cursor);
      ReadMoreBudget(env, w.cursor);
      if !m.ok then WalkEnd(true, w.(cursor := m.cursor))
      else WalkF(env, w.(cursor := m.cursor, queue := w.queue + m.payloads, arrived := w.arrived + m.payloads))
    else
      var p := w.queue[w.at];
      if !Matches(p, w.target) then WalkF(env, w.(at := w.at + 1))
      else if |w.frame| > 0 && p.mediaObjectNumber != w.objectNumber then WalkEnd(true, w)
      else
        var a := TakeAlloc(env, w);
        if !a.ok then
          WalkEnd(false, w.(target := if w.target == 0 then p.streamId else w.target, objectNumber := p.mediaObjectNumber,
                            size := w.size + DataLength(p), errors := w.errors + a.errors))
        else WalkF(env, Taken(w, a.capacity).(errors := w.errors + a.errors))
  }

  /** The allocation a payload joining the frame needs: the list grows to `count + 3` once `count` exceeds it. */
  function TakeAlloc(env: Env, w: Walk): Alloc {
    var count := |w.frame| + 1;
    if count > w.capacity then ResizeF(env, true, w.capacity, count + 3) else Alloc(true, true, w.capacity, [])
  }

  /** The walk's state once payload `at` has joined the frame and left the queue, with a list of the given capacity. */
  function Taken(w: Walk, capacity: int): Walk
    requires w.at < |w.queue|
  {
    var p := w.queue[w.at];
    w.(target := if w.target == 0 then p.streamId else w.target, objectNumber := p.mediaObjectNumber,
       size := w.size + DataLength(p), capacity := capacity,
       frame := w.frame + [p], queue := w.queue[..w.at] + w.queue[w.at + 1..])
  }

  // ---------------------------------------------------------------------
  // Advance

  const PacketCorruption := "Data corruption in packets."

  /** Decode the frame's bytes as UTF-16 units, least significant byte first; an odd last byte is ignored. */
  function Units(data: seq<bv8>): (u: seq<int>)
    ensures |u| == |data| / 2
  {
    if |data| < 2 then [] else [data[0] as int + 256 * data[1] as int] + Units(data[2..])
  }

  /** The first NUL unit at or after `from`, or the length when there is none. */
  function NextNul(units: seq<int>, from: nat): (n: nat)
    requires from <= |units|
    ensures from <= n <= |units|
    ensures n < |units| ==> units[n] == 0
    decreases |units| - from
  {
    if from == |units| then from else if units[from] == 0 then from else NextNul(units, from + 1)
  }

  /** No unit between `from` and the NUL found is a NUL. */
  lemma {:induction false} NextNulSkips(units: seq<int>, from: nat)
    requires from <= |units|
    ensures forall j :: from <= j < NextNul(units, from) ==> units[j] != 0
    decreases |units| - from
  {
    if from < |units| && units[from] != 0 {
      NextNulSkips(units, from + 1);
    }
  }

  /**
   * What `ReadScriptCommand` makes of a frame: the type runs up to and
   * including the first NUL unit, the text from there up to and including
   * the second; no command without two NULs.
   */
  function CommandOf(frame: seq<Payload>): Option<Command> {
    CommandIn(Units(Concat(frame)), PtsOf(frame))
  }

  /** The command a sequence of units carries, if it has two NULs. */
  function CommandIn(units: seq<int>, pts: int): Option<Command> {
    var n1 := NextNul(units, 0);
    if n1 == |units| then None
    else
      var n2 := NextNul(units, n1 + 1);
      if n2 == |units| then None
      else Some(Command(units[..n1 + 1], units[n1 + 1..n2 + 1], pts))
  }

  /** `ReadScriptCommand`: with a callback set, a frame with two NULs is handed to it. */
  function Intercept(env: Env, rd: Reader): Reader {
    if !env.callback then rd
    else match CommandOf(rd.frame)
      case None => rd
      case Some(c) => rd.(commands := rd.commands + [c])
  }

  /** Whether the frame belongs to the script-command stream, which `Advance` never returns. */
  predicate IsScriptFrame(rd: Reader) {
    StreamIdOf(rd.frame) == rd.scriptIndex && rd.scriptIndex > 0
  }

  /** How `Advance` ended: with a frame, for lack of data, or because the list could not be allocated. */
  datatype Outcome = Framed | NoData | NoMemory

  /** Outcome of `Advance`: how it ended, the new state and the errors added to the parser's chain. */
  datatype Step = Step(outcome: Outcome, reader: Reader, errors: seq<string>)

  /** One pass of `Advance` from `start` to `end_frame`, and the stream the walk was locked to. */
  datatype Attempt = Attempt(outcome: Outcome, reader: Reader, errors: seq<string>, locked: int, fetched: seq<Payload>)

  /** A reader state `Advance` can start from: without a list there is no capacity and no frame. */
  predicate ReaderIn(env: Env, rd: Reader) {
    rd.cursor.pos <= |env.data| && 0 <= rd.capacity && (!rd.hasList ==> rd.capacity == 0 && rd.frame == [])
  }

  /**
   * The part of `Advance (stream_id)` from `start` to `end_frame`: make sure
   * the payload list exists (an allocation failure is reported as packet
   * corruption), drop the previous frame, fetch a packet when the queue is
   * empty (giving up when there is none or it has no payloads), and walk.
   * `fetched` lists the payloads of the packets read on the way.
   */
  function AttemptF(env: Env, rd: Reader, target: int): (a: Attempt)
    requires ReaderIn(env, rd)
    ensures ReaderIn(env, a.reader)
    ensures rd.cursor.index <= a.reader.cursor.index
    ensures a.reader.scriptIndex == rd.scriptIndex
    ensures Budget(env, a.reader.cursor) <= Budget(env, rd.cursor)
    ensures a.outcome == Framed && a.reader.frame != [] && Budget(env, a.reader.cursor) == Budget(env, rd.cursor) ==>
      |a.reader.queue| < |rd.queue|
  {
    var al := ListReady(env, rd);
    if !al.ok then Attempt(NoMemory, rd, al.errors + [PacketCorruption], target, [])
    else
      var m := Supply(env, rd);
      ReadMoreBudget(env, rd.cursor);
      if !m.ok || m.payloads == [] then Attempt(NoData, rd.(hasList := true, capacity := al.capacity, frame := [], cursor := m.cursor), [], target, [])
      else
        var w := WalkF(env, FirstWalk(m, target, al.capacity));
        Attempt(if w.ok then Framed else NoMemory,
                rd.(hasList := true, cursor := w.w.cursor, queue := w.w.queue, frame := w.w.frame,
                    capacity := w.w.capacity, size := w.w.size),
                w.w.errors, w.w.target, (if rd.queue == [] then m.payloads else []) + w.w.arrived)
  }

  /** The start of `Advance`: a list of two payloads when there is none yet. */
  function ListReady(env: Env, rd: Reader): (al: Alloc)
    requires 0 <= rd.capacity
    ensures al.ok ==> al.errors == [] && 0 <= al.capacity
    ensures al.ok && rd.hasList ==> al.capacity == rd.capacity
  {
    if !rd.hasList then ResizeF(env, false, rd.capacity, 2) else Alloc(true, true, rd.capacity, [])
  }

  /** The queue to walk: the queued payloads, or when there are none those of the packet `ReadMore` reads. */
  function Supply(env: Env, rd: Reader): (m: More)
    requires rd.cursor.pos <= |env.data|
    ensures m.cursor.pos <= |env.data|
    ensures rd.cursor.index <= m.cursor.index
  {
    if rd.queue == [] then ReadMoreF(env, rd.cursor) else More(true, rd.queue, rd.cursor)
  }

  /** The walk's start: `current = first`, no stream locked unless one was asked for, an empty frame. */
  function FirstWalk(m: More, target: int, capacity: int): Walk {
    Walk(m.cursor, m.payloads, 0, target, [], 0, capacity, 0, [], [])
  }

  /**
   * `Advance (stream_id)`: attempt, and after a script-command frame hand it
   * to the callback and start again for the stream the caller asked for.
   */
  function AdvanceF(env: Env, rd: Reader, target: int): (s: Step)
    requires ReaderIn(env, rd)
    ensures ReaderIn(env, s.reader)
    ensures rd.cursor.index <= s.reader.cursor.index
    ensures s.reader.scriptIndex == rd.scriptIndex
    decreases Budget(env, rd.cursor), |rd.queue|
  {
    var a := AttemptF(env, rd, target);
    if a.outcome == Framed && IsScriptFrame(a.reader) then
      var s := AdvanceF(env, Intercept(env, a.reader), target);
      Step(s.outcome, s.reader, a.errors + s.errors)
    else Step(a.outcome, a.reader, a.errors)
  }

  /** `Advance` ends with the pass that does not yield a script-command frame. */
  lemma AdvanceDone(env: Env, rd: Reader, target: int)
    requires ReaderIn(env, rd)
    requires var a := AttemptF(env, rd, target); !(a.outcome == Framed && IsScriptFrame(a.reader))
    ensures var a := AttemptF(env, rd, target); AdvanceF(env, rd, target) == Step(a.outcome, a.reader, a.errors)
  {
  }

  /** After a script-command frame `Advance` starts again from the state `ReadScriptCommand` leaves. */
  lemma AdvanceAgain(env: Env, rd: Reader, target: int)
    requires ReaderIn(env, rd)
    requires var a := AttemptF(env, rd, target); a.outcome == Framed && IsScriptFrame(a.reader)
    ensures var a := AttemptF(env, rd, target);
      ReaderIn(env, Intercept(env, a.reader)) &&
      var s := AdvanceF(env, Intercept(env, a.reader), target);
      AdvanceF(env, rd, target) == Step(s.outcome, s.reader, a.errors + s.errors)
  {
  }

  /**
   * So `Advance` on an unseekable reader with nothing queued yields no frame
   * and takes no payloads: the end when the list exists, a refused list
   * otherwise.
   */
  lemma UnseekableAdvanceEmpty(env: Env, rd: Reader, target: int)
    requires ReaderIn(env, rd) && !env.seekable && rd.cursor.index == -1 && rd.queue == []
    requires env.layout.packetCount < TwoTo32
    ensures var s := AdvanceF(env, rd, target);
      s.outcome != Framed && s.reader.queue == [] && s.reader.cursor.index == -1 &&
      (s.outcome == NoData <==> ListReady(env, rd).ok) &&
      (s.outcome == NoData ==> s.reader.cursor == rd.cursor.(eof := true) && s.reader.frame == [] && s.errors == [])
  {
  }

  /**
   * `Advance (stream_id)` as written: `goto start` keeps the stream the walk
   * stored into `stream_id`, so after a script-command frame a call for any
   * stream (0) goes on for the script-command stream alone.
   */
  function AdvanceAsWritten(env: Env, rd: Reader, target: int): (s: Step)
    requires ReaderIn(env, rd)
    ensures ReaderIn(env, s.reader)
    ensures rd.cursor.index <= s.reader.cursor.index
    ensures s.reader.scriptIndex == rd.scriptIndex
    decreases Budget(env, rd.cursor), |rd.queue|
  {
    var a := AttemptF(env, rd, target);
    if a.outcome == Framed && IsScriptFrame(a.reader) then
      var s := AdvanceAsWritten(env, Intercept(env, a.reader), a.locked);
      Step(s.outcome, s.reader, a.errors + s.errors)
    else Step(a.outcome, a.reader, a.errors)
  }

  // ---------------------------------------------------------------------
  // What a walk does to the queue

  /** `all` is `a` and `b` merged, each keeping its own order. */
  predicate Interleaves(all: seq<Payload>, a: seq<Payload>, b: seq<Payload>)
    decreases |all|
  {
    if all == [] then a == [] && b == []
    else
      var x := all[|all| - 1];
      (a != [] && a[|a| - 1] == x && Interleaves(all[..|all| - 1], a[..|a| - 1], b)) ||
      (b != [] && b[|b| - 1] == x && Interleaves(all[..|all| - 1], a, b[..|b| - 1]))
  }

  /** A merge loses and invents nothing. */
  lemma {:induction false} InterleavesMultiset(all: seq<Payload>, a: seq<Payload>, b: seq<Payload>)
    requires Interleaves(all, a, b)
    ensures multiset(all) == multiset(a) + multiset(b)
    decreases |all|
  {
    if all != [] {
      var x := all[|all| - 1];
      assert all == all[..|all| - 1] + [x];
      if a != [] && a[|a| - 1] == x && Interleaves(all[..|all| - 1], a[..|a| - 1], b) {
        InterleavesMultiset(all[..|all| - 1], a[..|a| - 1], b);
        assert a == a[..|a| - 1] + [x];
      } else {
        InterleavesMultiset(all[..|all| - 1], a, b[..|b| - 1]);
        assert b == b[..|b| - 1] + [x];
      }
    }
  }

  /** Elements that follow a merge belong to its second part. */
  lemma {:induction false} InterleavesExtend(h: seq<Payload>, a: seq<Payload>, b: seq<Payload>, rest: seq<Payload>)
    requires Interleaves(h, a, b)
    ensures Interleaves(h + rest, a, b + rest)
    decreases |rest|
  {
    if rest == [] {
      assert h + rest == h && b + rest == b;
    } else {
      var r0 := rest[..|rest| - 1];
      InterleavesExtend(h, a, b, r0);
      var hr, br := h + rest, b + rest;
      assert hr[..|hr| - 1] == h + r0 && hr[|hr| - 1] == rest[|rest| - 1];
      assert br[..|br| - 1] == b + r0 && br[|br| - 1] == rest[|rest| - 1];
    }
  }

  /**
   * What holds at every step of a walk that started on queue `q0` for stream
   * `t0`: everything handled so far (`q0` and the fetched payloads, up to the
   * unhandled tail of the queue) is the frame merged with the queue before
   * `at`; the frame's payloads are of the locked stream (or, with no stream
   * asked for, of stream 0) and of one media object; the payloads passed over
   * are of other streams; `size` sums the frame and the list holds it.
   */
  predicate WalkInv(q0: seq<Payload>, t0: int, w: Walk) {
    WalkMerge(q0, w) && WalkShape(t0, w)
  }

  /** The payloads handled so far are the frame merged with the queue before `at`; the rest are the queue's tail. */
  predicate WalkMerge(q0: seq<Payload>, w: Walk) {
    var all := q0 + w.arrived;
    var pending := |w.queue| - w.at;
    0 <= pending <= |all| && all[|all| - pending..] == w.queue[w.at..] &&
    Interleaves(all[..|all| - pending], w.frame, w.queue[..w.at])
  }

  /** The streams, media object, size and list room of the frame, and the payloads passed over. */
  predicate WalkShape(t0: int, w: Walk) {
    w.at <= |w.queue| &&
    (t0 != 0 ==> w.target == t0) &&
    (w.target == 0 ==> w.at == 0) &&
    (w.target != t0 ==> w.frame != []) &&
    (t0 == 0 ==> w.frame != [] || w.at < |w.queue|) &&
    (forall j :: 0 <= j < |w.frame| ==>
       (w.frame[j].streamId == w.target || (t0 == 0 && w.frame[j].streamId == 0)) &&
       w.frame[j].mediaObjectNumber == w.objectNumber) &&
    (forall j :: 0 <= j < w.at ==> !Matches(w.queue[j], w.target)) &&
    w.size == SumLengths(w.frame) && |w.frame| <= w.capacity && w.errors == []
  }

  /** Why a walk that did not fail stopped: the queue ran out, or a payload of the stream began another media object. */
  predicate Stopped(w: Walk) {
    w.at <= |w.queue| &&
    (w.at == |w.queue| ||
     (w.frame != [] && Matches(w.queue[w.at], w.target) && w.queue[w.at].mediaObjectNumber != w.objectNumber))
  }

  /** Going on with a fetched packet's payloads keeps the walk's invariant. */
  lemma FetchKeeps(q0: seq<Payload>, t0: int, w: Walk, c: Cursor, ps: seq<Payload>)
    requires WalkInv(q0, t0, w) && w.at == |w.queue|
    ensures WalkInv(q0, t0, w.(cursor := c, queue := w.queue + ps, arrived := w.arrived + ps))
  {
    var all := q0 + w.arrived;
    var w1 := w.(cursor := c, queue := w.queue + ps, arrived := w.arrived + ps);
    var all1 := q0 + w1.arrived;
    assert all1 == all + ps;
    assert all1[|all1| - |ps|..] == ps == w1.queue[w1.at..];
    assert all1[..|all1| - |ps|] == all == all[..|all| - 0];
    assert w1.queue[..w1.at] == w.queue[..w.at];
    assert |w1.queue| - w1.at == |ps|;
  }

  /** Passing over a payload of another stream keeps the walk's invariant. */
  lemma SkipKeeps(q0: seq<Payload>, t0: int, w: Walk)
    requires WalkInv(q0, t0, w) && w.at < |w.queue| && !Matches(w.queue[w.at], w.target)
    ensures WalkInv(q0, t0, w.(at := w.at + 1))
  {
    var all := q0 + w.arrived;
    var pending := |w.queue| - w.at;
    var h := all[..|all| - pending];
    var p := w.queue[w.at];
    assert all[|all| - pending] == p;
    var w1 := w.(at := w.at + 1);
    var h1 := all[..|all| - (pending - 1)];
    assert h1[..|h1| - 1] == h && h1[|h1| - 1] == p;
    var b1 := w1.queue[..w1.at];
    assert b1[..|b1| - 1] == w.queue[..w.at] && b1[|b1| - 1] == p;
    assert Interleaves(h1, w.frame, b1);
    assert all[|all| - (pending - 1)..] == w.queue[w.at + 1..];
  }

  /** Moving a payload of the frame's media object from the queue into the frame keeps the walk's invariant. */
  lemma TakeKeeps(q0: seq<Payload>, t0: int, w: Walk, capacity: int)
    requires WalkInv(q0, t0, w) && w.at < |w.queue| && Matches(w.queue[w.at], w.target)
    requires |w.frame| > 0 ==> w.queue[w.at].mediaObjectNumber == w.objectNumber
    requires capacity >= |w.frame| + 1
    ensures WalkInv(q0, t0, Taken(w, capacity))
  {
    TakeMerges(q0, w, capacity);
    TakeShapes(t0, w, capacity);
  }

  lemma TakeMerges(q0: seq<Payload>, w: Walk, capacity: int)
    requires WalkMerge(q0, w) && w.at < |w.queue|
    ensures WalkMerge(q0, Taken(w, capacity))
  {
    var all := q0 + w.arrived;
    var pending := |w.queue| - w.at;
    var h := all[..|all| - pending];
    var p := w.queue[w.at];
    assert all[|all| - pending] == p;
    var w2 := Taken(w, capacity);
    var h2 := all[..|all| - (pending - 1)];
    assert h2[..|h2| - 1] == h && h2[|h2| - 1] == p;
    assert w2.frame[..|w2.frame| - 1] == w.frame;
    assert w2.queue[..w2.at] == w.queue[..w.at];
    assert w2.queue[w2.at..] == w.queue[w.at + 1..];
    assert all[|all| - (pending - 1)..] == w.queue[w.at + 1..];
    assert |w2.queue| - w2.at == pending - 1;
    assert Interleaves(h2, w2.frame, w2.queue[..w2.at]);
  }

  lemma TakeShapes(t0: int, w: Walk, capacity: int)
    requires WalkShape(t0, w) && w.at < |w.queue| && Matches(w.queue[w.at], w.target)
    requires |w.frame| > 0 ==> w.queue[w.at].mediaObjectNumber == w.objectNumber
    requires capacity >= |w.frame| + 1
    ensures WalkShape(t0, Taken(w, capacity))
  {
    var w2 := Taken(w, capacity);
    assert w2.queue[..w2.at] == w.queue[..w.at];
  }

  /** What a walk from `w` ends with: the invariant still holds and the walk stopped for one of its two reasons. */
  predicate EndsWell(env: Env, q0: seq<Payload>, t0: int, w: Walk)
    requires WalkIn(env, w)
  {
    var r := WalkF(env, w);
    r.ok ==> WalkInv(q0, t0, r.w) && Stopped(r.w)
  }

  lemma {:induction false} WalkKeeps(env: Env, q0: seq<Payload>, t0: int, w: Walk)
    requires WalkIn(env, w) && WalkInv(q0, t0, w)
    ensures EndsWell(env, q0, t0, w)
    decreases Budget(env, w.cursor), |w.queue| - w.at, 1
  {
    if w.at == |w.queue| {
      FetchStep(env, q0, t0, w);
    } else if !Matches(w.queue[w.at], w.target) {
      SkipStep(env, q0, t0, w);
    } else if |w.frame| > 0 && w.queue[w.at].mediaObjectNumber != w.objectNumber {
      assert WalkF(env, w) == WalkEnd(true, w);
    } else {
      TakeStep(env, q0, t0, w);
    }
  }

  lemma {:induction false} FetchStep(env: Env, q0: seq<Payload>, t0: int, w: Walk)
    requires WalkIn(env, w) && WalkInv(q0, t0, w) && w.at == |w.queue|
    ensures EndsWell(env, q0, t0, w)
    decreases Budget(env, w.cursor), |w.queue| - w.at, 0
  {
    var m := ReadMoreF(env, w.cursor);
    ReadMoreBudget(env, w.cursor);
    if m.ok {
      var w1 := w.(cursor := m.cursor, queue := w.queue + m.payloads, arrived := w.arrived + m.payloads);
      assert WalkF(env, w) == WalkF(env, w1);
      FetchKeeps(q0, t0, w, m.cursor, m.payloads);
      WalkKeeps(env, q0, t0, w1);
    } else {
      assert WalkF(env, w) == WalkEnd(true, w.(cursor := m.cursor));
    }
  }

  lemma {:induction false} SkipStep(env: Env, q0: seq<Payload>, t0: int, w: Walk)
    requires WalkIn(env, w) && WalkInv(q0, t0, w) && w.at < |w.queue| && !Matches(w.queue[w.at], w.target)
    ensures EndsWell(env, q0, t0, w)
    decreases Budget(env, w.cursor), |w.queue| - w.at, 0
  {
    assert WalkF(env, w) == WalkF(env, w.(at := w.at + 1));
    SkipKeeps(q0, t0, w);
    WalkKeeps(env, q0, t0, w.(at := w.at + 1));
  }

  lemma TakeUnfold(env: Env, w: Walk)
    requires WalkIn(env, w) && w.at < |w.queue| && Matches(w.queue[w.at], w.target)
    requires |w.frame| > 0 ==> w.queue[w.at].mediaObjectNumber == w.objectNumber
    requires TakeAlloc(env, w).ok
    ensures WalkIn(env, Taken(w, TakeAlloc(env, w).capacity))
    ensures WalkF(env, w) == WalkF(env, Taken(w, TakeAlloc(env, w).capacity).(errors := w.errors + TakeAlloc(env, w).errors))
  {
  }

  lemma {:induction false} TakeStep(env: Env, q0: seq<Payload>, t0: int, w: Walk)
    requires WalkIn(env, w) && WalkInv(q0, t0, w) && w.at < |w.queue| && Matches(w.queue[w.at], w.target)
    requires |w.frame| > 0 ==> w.queue[w.at].mediaObjectNumber == w.objectNumber
    ensures EndsWell(env, q0, t0, w)
    decreases Budget(env, w.cursor), |w.queue| - w.at, 0
  {
    var a := TakeAlloc(env, w);
    if a.ok {
      TakeUnfold(env, w);
      assert w.errors + a.errors == w.errors;
      var w2 := Taken(w, a.capacity);
      TakeKeeps(q0, t0, w, a.capacity);
      WalkKeeps(env, q0, t0, w2);
    } else {
      assert !WalkF(env, w).ok;
    }
  }

  /** The handled part merged with the unhandled tail is the whole. */
  lemma Assemble(all: seq<Payload>, frame: seq<Payload>, queue: seq<Payload>, at: nat)
    requires at <= |queue| && |queue| - at <= |all|
    requires all[|all| - (|queue| - at)..] == queue[at..]
    requires Interleaves(all[..|all| - (|queue| - at)], frame, queue[..at])
    ensures Interleaves(all, frame, queue)
  {
    var pending := |queue| - at;
    InterleavesExtend(all[..|all| - pending], frame, queue[..at], queue[at..]);
    assert all[..|all| - pending] + queue[at..] == all;
    assert queue[..at] + queue[at..] == queue;
  }

  /**
   * A walk from an empty frame that does not fail ends with the fetched
   * payloads appended to the queue and split between frame and queue in
   * their order, the frame made of one media object of one stream (the one
   * asked for, or else the stream of its first payload with a stream number
   * other than 0), every payload passed over of another stream, and `size`
   * the frame's total length.
   */
  lemma WalkResult(env: Env, c: Cursor, q: seq<Payload>, t0: int, capacity: int)
    requires c.pos <= |env.data| && 0 <= capacity && q != []
    ensures var r := WalkF(env, FirstWalk(More(true, q, c), t0, capacity));
      r.ok ==> WalkFacts(q, t0, r.w)
  {
    var w := FirstWalk(More(true, q, c), t0, capacity);
    FirstWalkInv(c, q, t0, capacity);
    WalkKeeps(env, q, t0, w);
    var r := WalkF(env, w);
    if r.ok {
      StoppedFacts(q, t0, r.w);
    }
  }

  /** The walk's invariant holds at its start. */
  lemma FirstWalkInv(c: Cursor, q: seq<Payload>, t0: int, capacity: int)
    requires 0 <= capacity && q != []
    ensures WalkInv(q, t0, FirstWalk(More(true, q, c), t0, capacity))
  {
    var w := FirstWalk(More(true, q, c), t0, capacity);
    assert q + w.arrived == q;
    assert q[|q| - |q|..] == q && q[..|q| - |q|] == [];
  }

  /** A walk stopped with its invariant holding has the facts a walk ends with. */
  lemma StoppedFacts(q: seq<Payload>, t0: int, w: Walk)
    requires WalkInv(q, t0, w) && Stopped(w)
    ensures WalkFacts(q, t0, w)
  {
    Assemble(q + w.arrived, w.frame, w.queue, w.at);
  }

  /**
   * A walk from an empty frame that does not fail stops at the queue's first
   * payload of the locked stream, and nothing read after that payload joined
   * the frame.
   */
  lemma WalkKeepsTail(env: Env, c: Cursor, q: seq<Payload>, t0: int, capacity: int)
    requires c.pos <= |env.data| && 0 <= capacity && q != []
    ensures var r := WalkF(env, FirstWalk(More(true, q, c), t0, capacity));
      r.ok ==> TailKept(q + r.w.arrived, r.w.frame, r.w.queue, r.w.target)
  {
    var w := FirstWalk(More(true, q, c), t0, capacity);
    FirstWalkInv(c, q, t0, capacity);
    WalkKeeps(env, q, t0, w);
    var r := WalkF(env, w);
    if r.ok {
      StoppedTail(q, t0, r.w);
    }
  }

  /** A walk stopped with its invariant holding stopped at the queue's first payload of its stream. */
  lemma StoppedTail(q: seq<Payload>, t0: int, w: Walk)
    requires WalkInv(q, t0, w) && Stopped(w)
    ensures TailKept(q + w.arrived, w.frame, w.queue, w.target)
  {
    FirstMatchIs(w.queue, w.target, 0, w.at);
  }

  /** The first match from `from` on is `at` when nothing between them matches and `at` does or ends the queue. */
  lemma {:induction false} FirstMatchIs(queue: seq<Payload>, target: int, from: nat, at: nat)
    requires from <= at <= |queue| && (at == |queue| || Matches(queue[at], target))
    requires forall k :: from <= k < at ==> !Matches(queue[k], target)
    ensures FirstMatch(queue, target, from) == at
    decreases at - from
  {
    if from < at {
      FirstMatchIs(queue, target, from + 1, at);
    }
  }

  // ---------------------------------------------------------------------
  // What Advance returns

  /** All payloads of a frame are of one media object. */
  predicate OneObject(frame: seq<Payload>) {
    forall j :: 0 <= j < |frame| ==> frame[j].mediaObjectNumber == frame[0].mediaObjectNumber
  }

  /** The payloads of a frame are of the stream asked for, if one was; in any case no two of its non-zero stream numbers differ. */
  predicate OneStream(frame: seq<Payload>, target: int) {
    (target != 0 ==> forall j :: 0 <= j < |frame| ==> frame[j].streamId == target) &&
    (forall j, k :: 0 <= j < |frame| && 0 <= k < |frame| && frame[j].streamId != 0 && frame[k].streamId != 0 ==>
       frame[j].streamId == frame[k].streamId)
  }

  /** No payload of stream `target` before index `j` of the queue. */
  predicate NoneBefore(queue: seq<Payload>, target: int, j: int)
    requires 0 <= j <= |queue|
  {
    forall k :: 0 <= k < j ==> !Matches(queue[k], target)
  }

  /** At a stopped walk the first queued payload of the stream, if any, is of another media object. */
  lemma StopFirst(w: Walk)
    requires Stopped(w) && forall j :: 0 <= j < w.at ==> !Matches(w.queue[j], w.target)
    requires forall j :: 0 <= j < |w.frame| ==> w.frame[j].mediaObjectNumber == w.objectNumber
    ensures forall j :: 0 <= j < |w.queue| && Matches(w.queue[j], w.target) && NoneBefore(w.queue, w.target, j) ==>
      w.frame != [] && w.queue[j].mediaObjectNumber != w.frame[0].mediaObjectNumber
  {
  }

  /** The index of the first payload of stream `target` in the queue from `from` on, or the queue's length. */
  function FirstMatch(queue: seq<Payload>, target: int, from: nat): (j: nat)
    requires from <= |queue|
    ensures from <= j <= |queue|
    ensures j < |queue| ==> Matches(queue[j], target)
    ensures forall k :: from <= k < j ==> !Matches(queue[k], target)
    decreases |queue| - from
  {
    if from == |queue| || Matches(queue[from], target) then from else FirstMatch(queue, target, from + 1)
  }

  /**
   * Nothing queued after the payload the walk stopped at took part in it:
   * from the queue's first payload of the locked stream on, the queue is the
   * unchanged tail of the payloads read, and what comes before that tail is
   * the frame merged with the payloads passed over.
   */
  predicate TailKept(input: seq<Payload>, frame: seq<Payload>, queue: seq<Payload>, locked: int) {
    var at := FirstMatch(queue, locked, 0);
    var pending := |queue| - at;
    pending <= |input| && input[|input| - pending..] == queue[at..] &&
    Interleaves(input[..|input| - pending], frame, queue[..at])
  }

  /** The facts a walk from an empty frame on queue `q` for stream `t0` ends with. */
  predicate WalkFacts(q: seq<Payload>, t0: int, w: Walk) {
    Stopped(w) &&
    Interleaves(q + w.arrived, w.frame, w.queue) &&
    (t0 != 0 ==> w.target == t0) &&
    (t0 == 0 ==> w.frame != []) &&
    (forall j :: 0 <= j < |w.frame| ==>
       (w.frame[j].streamId == w.target || (t0 == 0 && w.frame[j].streamId == 0)) &&
       w.frame[j].mediaObjectNumber == w.objectNumber) &&
    (forall j :: 0 <= j < w.at ==> !Matches(w.queue[j], w.target)) &&
    w.size == SumLengths(w.frame) && |w.frame| <= w.capacity && w.errors == []
  }

  /** What a frame built by a walk looks like: with no stream asked for it is never empty. */
  predicate FrameFacts(queue: seq<Payload>, frame: seq<Payload>, target: int, locked: int) {
    (target != 0 ==> locked == target) &&
    (target == 0 ==> frame != []) &&
    OneObject(frame) && OneStream(frame, target) &&
    (frame != [] && locked != 0 ==> frame[0].streamId == locked || frame[0].streamId == 0) &&
    (forall j :: 0 <= j < |queue| && Matches(queue[j], locked) && NoneBefore(queue, locked, j) ==>
       frame != [] && queue[j].mediaObjectNumber != frame[0].mediaObjectNumber)
  }

  lemma WalkFrameFacts(q: seq<Payload>, t0: int, w: Walk)
    requires WalkFacts(q, t0, w)
    ensures FrameFacts(w.queue, w.frame, t0, w.target)
  {
    StopFirst(w);
  }

  /** One pass of `Advance` finds no data only on an empty queue with nothing to read, and then drops the frame. */
  lemma AttemptNoData(env: Env, rd: Reader, target: int)
    requires ReaderIn(env, rd)
    ensures var a := AttemptF(env, rd, target);
      a.outcome == NoData ==> rd.queue == [] && a.reader.queue == [] && a.reader.frame == [] && a.errors == []
  {
  }

  /**
   * A pass of `Advance` that reaches `end_frame` has split the queue and the
   * payloads it read between frame and queue in their order, built the frame
   * from one media object of one stream, summed its lengths into `size`, and
   * left as the first queued payload of the locked stream, if any, one of
   * another media object.
   */
  lemma AttemptFramed(env: Env, rd: Reader, target: int)
    requires ReaderIn(env, rd)
    ensures var a := AttemptF(env, rd, target);
      a.outcome == Framed ==>
        a.reader.hasList && a.errors == [] &&
        Interleaves(rd.queue + a.fetched, a.reader.frame, a.reader.queue) &&
        FrameFacts(a.reader.queue, a.reader.frame, target, a.locked) &&
        a.reader.size == SumLengths(a.reader.frame) && |a.reader.frame| <= a.reader.capacity
  {
    var a := AttemptF(env, rd, target);
    var al := ListReady(env, rd);
    var m := Supply(env, rd);
    if al.ok && m.ok && m.payloads != [] {
      var w := WalkF(env, FirstWalk(m, target, al.capacity));
      if w.ok {
        assert WalkFacts(m.payloads, target, w.w) by {
          WalkResult(env, m.cursor, m.payloads, target, al.capacity);
          assert FirstWalk(More(true, m.payloads, m.cursor), target, al.capacity) == FirstWalk(m, target, al.capacity);
        }
        WalkFrameFacts(m.payloads, target, w.w);
        assert rd.queue + a.fetched == m.payloads + w.w.arrived;
      }
    }
  }
  /**
   * A pass of `Advance` that reaches `end_frame` leaves the queue, from its
   * first payload of the locked stream on, as the unchanged tail of the
   * queued and fetched payloads: no payload after the one that ended the
   * frame joined it.
   */
  lemma AttemptKeepsTail(env: Env, rd: Reader, target: int)
    requires ReaderIn(env, rd)
    ensures var a := AttemptF(env, rd, target);
      a.outcome == Framed ==> TailKept(rd.queue + a.fetched, a.reader.frame, a.reader.queue, a.locked)
  {
    var a := AttemptF(env, rd, target);
    var al := ListReady(env, rd);
    var m := Supply(env, rd);
    if al.ok && m.ok && m.payloads != [] {
      var w := WalkF(env, FirstWalk(m, target, al.capacity));
      if w.ok {
        WalkKeepsTail(env, m.cursor, m.payloads, target, al.capacity);
        assert FirstWalk(More(true, m.payloads, m.cursor), target, al.capacity) == FirstWalk(m, target, al.capacity);
        assert rd.queue + a.fetched == m.payloads + w.w.arrived;
      }
    }
  }


  /**
   * `Advance` never returns a script-command frame; a frame it returns is
   * one media object of one stream (the one asked for, if any), `size` is its
   * length and the list holds it; it runs out of data only with an empty
   * queue.
   */
  lemma {:induction false} AdvanceResult(env: Env, rd: Reader, target: int)
    requires ReaderIn(env, rd)
    ensures var s := AdvanceF(env, rd, target);
      (s.outcome == Framed ==>
        !IsScriptFrame(s.reader) && s.reader.hasList &&
        OneObject(s.reader.frame) && OneStream(s.reader.frame, target) &&
        (target == 0 ==> s.reader.frame != []) &&
        s.reader.size == SumLengths(s.reader.frame) && |s.reader.frame| <= s.reader.capacity) &&
      (s.outcome == NoData ==> s.reader.queue == [] && s.reader.frame == [])
    decreases Budget(env, rd.cursor), |rd.queue|
  {
    var a := AttemptF(env, rd, target);
    AttemptNoData(env, rd, target);
    AttemptFramed(env, rd, target);
    if a.outcome == Framed && IsScriptFrame(a.reader) {
      AdvanceResult(env, Intercept(env, a.reader), target);
    }
  }

  /**
   * Asked for any stream, `Advance` returns a non-empty frame whenever the
   * queue holds a payload of a stream other than 0 and the script-command
   * stream, unless an allocation fails: the script-command frames before it
   * are consumed and the walk starts again for any stream.
   */
  lemma {:induction false} AdvanceReachesOtherStreams(env: Env, rd: Reader, i: nat)
    requires ReaderIn(env, rd)
    requires i < |rd.queue| && rd.queue[i].streamId != 0 && rd.queue[i].streamId != rd.scriptIndex
    ensures var s := AdvanceF(env, rd, 0);
      s.outcome != NoMemory ==> s.outcome == Framed && s.reader.frame != []
    decreases Budget(env, rd.cursor), |rd.queue|
  {
    var p := rd.queue[i];
    var a := AttemptF(env, rd, 0);
    AttemptNoData(env, rd, 0);
    AttemptFramed(env, rd, 0);
    if a.outcome == Framed && IsScriptFrame(a.reader) {
      var f := a.reader.frame;
      assert p !in f;
      assert p in multiset(rd.queue + a.fetched);
      InterleavesMultiset(rd.queue + a.fetched, f, a.reader.queue);
      assert p in multiset(a.reader.queue);
      var k :| 0 <= k < |a.reader.queue| && a.reader.queue[k] == p;
      AdvanceReachesOtherStreams(env, Intercept(env, a.reader), k);
    }
  }

  /**
   * A queue holding a script-command payload (stream 2) followed by a video
   * payload (stream 1), on a source with no packets left: asked for any
   * stream, `Advance` as written hands the script command over and then,
   * still locked to stream 2, ends with an empty frame and the video payload
   * left queued; the corrected `Advance` returns the video payload.
   */
  lemma AsWrittenSkipsOtherStreams()
    ensures var env := Env((b: seq<bv8>) => None, [], true, Layout(50, 50, 0, 0), None, false);
      var script := Payload(2, 1, 0, true, []);
      var video := Payload(1, 1, 0, true, []);
      var rd := Reader(Cursor(0, 0, false), [script, video], [], true, 4, 0, 2, 0, []);
      var s := AdvanceAsWritten(env, rd, 0);
      var t := AdvanceF(env, rd, 0);
      ReaderIn(env, rd) && rd.queue[1].streamId != 0 && rd.queue[1].streamId != rd.scriptIndex &&
      s.outcome == Framed && s.reader.frame == [] && s.reader.queue == [video] &&
      t.outcome == Framed && t.reader.frame == [video]
  {
    var env := Env((b: seq<bv8>) => None, [], true, Layout(50, 50, 0, 0), None, false);
    var script := Payload(2, 1, 0, true, []);
    var video := Payload(1, 1, 0, true, []);
    var rd := Reader(Cursor(0, 0, false), [script, video], [], true, 4, 0, 2, 0, []);
    var c := Cursor(0, 0, false);
    var eof := Cursor(0, 0, true);
    assert ReadMoreF(env, c) == More(false, [], eof);
    assert ReadMoreF(env, eof) == More(false, [], eof);
    // First pass, for any stream: the script payload joins, the video payload is passed over.
    var w0 := FirstWalk(More(true, [script, video], c), 0, 4);
    var w1 := Taken(w0, 4);
    assert w1.queue == [video] && w1.target == 2 && w1.frame == [script];
    assert TakeAlloc(env, w0) == Alloc(true, true, 4, []) && w1.(errors := w0.errors + []) == w1;
    assert WalkF(env, w0) == WalkF(env, w1);
    var w2 := w1.(at := 1);
    assert WalkF(env, w1) == WalkF(env, w2);
    assert WalkF(env, w2) == WalkEnd(true, w2.(cursor := eof));
    var a := AttemptF(env, rd, 0);
    assert a.outcome == Framed && a.reader.frame == [script] && a.reader.queue == [video] && a.locked == 2;
    var rd1 := Intercept(env, a.reader);
    assert rd1 == a.reader;
    // As written: start again for stream 2.
    var v0 := FirstWalk(More(true, [video], eof), 2, 4);
    var v1 := v0.(at := 1);
    assert WalkF(env, v0) == WalkF(env, v1);
    assert WalkF(env, v1) == WalkEnd(true, v1);
    assert AttemptF(env, rd1, 2).reader.frame == [];
    // Corrected: start again for any stream.
    var u0 := FirstWalk(More(true, [video], eof), 0, 4);
    var u1 := Taken(u0, 4);
    assert u1.queue == [] && u1.frame == [video];
    assert TakeAlloc(env, u0) == Alloc(true, true, 4, []) && u1.(errors := u0.errors + []) == u1;
    assert WalkF(env, u0) == WalkF(env, u1);
    assert WalkF(env, u1) == WalkEnd(true, u1);
    assert AttemptF(env, rd1, 0).reader.frame == [video];
  }

  // ---------------------------------------------------------------------
  // Script commands

  /** Whether every unit fits in 16 bits. */
  predicate UnitsFit(u: seq<int>) {
    forall k :: 0 <= k < |u| ==> 0 <= u[k] < 0x1_0000
  }

  /** The bytes of a unit, least significant first. */
  function LowByte(x: int): bv8
    requires 0 <= x < 0x1_0000
  {
    ByteOf(x % 256)
  }

  function HighByte(x: int): bv8
    requires 0 <= x < 0x1_0000
  {
    ByteOf(x / 256)
  }

  /** The byte holding a value below 256, counted up from zero. */
  function ByteOf(y: int): bv8
    requires 0 <= y < 256
  {
    if y == 0 then 0 else ByteOf(y - 1) + 1
  }

  /** UTF-16 units written least significant byte first, as an embedded script command stores them. */
  function EncodeUnits(u: seq<int>): (b: seq<bv8>)
    requires UnitsFit(u)
    ensures |b| == 2 * |u|
  {
    if u == [] then [] else [LowByte(u[0]), HighByte(u[0])] + EncodeUnits(u[1..])
  }

  /** Decoding encoded units gives them back, whatever bytes follow. */
  lemma {:induction false} UnitsOfEncoded(u: seq<int>, rest: seq<bv8>)
    requires UnitsFit(u)
    ensures Units(EncodeUnits(u) + rest) == u + Units(rest)
  {
    if u == [] {
      assert EncodeUnits(u) + rest == rest;
    } else {
      EncodedHead(u, rest);
      UnitsOfEncoded(u[1..], rest);
      assert [u[0]] + (u[1..] + Units(rest)) == u + Units(rest);
    }
  }

  lemma EncodedHead(u: seq<int>, rest: seq<bv8>)
    requires UnitsFit(u) && u != []
    ensures Units(EncodeUnits(u) + rest) == [u[0]] + Units(EncodeUnits(u[1..]) + rest)
  {
    var tail := EncodeUnits(u[1..]) + rest;
    assert EncodeUnits(u) + rest == [LowByte(u[0]), HighByte(u[0])] + tail;
    UnitsCons(LowByte(u[0]), HighByte(u[0]), tail);
    ByteSplit(u[0]);
  }

  lemma UnitsCons(lo: bv8, hi: bv8, tail: seq<bv8>)
    ensures Units([lo, hi] + tail) == [lo as int + 256 * hi as int] + Units(tail)
  {
    assert ([lo, hi] + tail)[2..] == tail;
  }

  /** A unit is its low byte plus 256 times its high byte. */
  lemma ByteSplit(x: int)
    requires 0 <= x < 0x1_0000
    ensures LowByte(x) as int + 256 * HighByte(x) as int == x
  {
    ByteValue(x % 256);
    ByteValue(x / 256);
  }

  lemma {:induction false} ByteValue(y: int)
    requires 0 <= y < 256
    ensures ByteOf(y) as int == y
  {
    if y > 0 {
      ByteValue(y - 1);
      ByteSucc(ByteOf(y - 1));
    }
  }

  lemma ByteSucc(b: bv8)
    requires b as int < 255
    ensures (b + 1) as int == b as int + 1
  {
  }

  /**
   * A command's type and text, each written with its terminating NUL and
   * followed by anything at all, are what `ReadScriptCommand` reads back.
   */
  lemma CommandRoundTrip(kind: seq<int>, text: seq<int>, frame: seq<Payload>, rest: seq<bv8>)
    requires UnitsFit(kind) && UnitsFit(text)
    requires forall k :: 0 <= k < |kind| ==> kind[k] != 0
    requires forall k :: 0 <= k < |text| ==> text[k] != 0
    requires Concat(frame) == EncodeUnits(kind + [0] + text + [0]) + rest
    ensures CommandOf(frame) == Some(Command(kind + [0], text + [0], PtsOf(frame)))
  {
    var all := kind + [0] + text + [0];
    assert UnitsFit(all);
    UnitsOfEncoded(all, rest);
    CommandSplit(kind, text, Units(rest), PtsOf(frame));
  }

  lemma CommandSplit(kind: seq<int>, text: seq<int>, tail: seq<int>, pts: int)
    requires forall k :: 0 <= k < |kind| ==> kind[k] != 0
    requires forall k :: 0 <= k < |text| ==> text[k] != 0
    ensures CommandIn(kind + [0] + text + [0] + tail, pts) == Some(Command(kind + [0], text + [0], pts))
  {
    var u := kind + [0] + text + [0] + tail;
    var n1 := NextNul(u, 0);
    NextNulSkips(u, 0);
    assert forall k :: 0 <= k < |kind| ==> u[k] == kind[k];
    assert u[|kind|] == 0;
    assert n1 == |kind|;
    var n2 := NextNul(u, n1 + 1);
    NextNulSkips(u, n1 + 1);
    assert forall k :: |kind| < k <= |kind| + |text| ==> u[k] == text[k - |kind| - 1];
    assert u[|kind| + 1 + |text|] == 0;
    assert n2 == |kind| + 1 + |text|;
    assert u[..n1 + 1] == kind + [0];
    assert u[n1 + 1..n2 + 1] == text + [0];
  }

  /** `ReadScriptCommand` finds no command exactly when the units hold fewer than two NULs. */
  lemma CommandNone(u: seq<int>, pts: int)
    ensures CommandIn(u, pts).None? <==> !exists i, j :: 0 <= i < j < |u| && u[i] == 0 && u[j] == 0
  {
    var n1 := NextNul(u, 0);
    NextNulSkips(u, 0);
    if n1 < |u| {
      var n2 := NextNul(u, n1 + 1);
      NextNulSkips(u, n1 + 1);
      if n2 == |u| {
        forall i, j | 0 <= i < j < |u| && u[i] == 0
          ensures u[j] != 0
        {
          assert n1 <= i && n1 + 1 <= j;
        }
      } else {
        assert u[n1] == 0 && u[n2] == 0;
      }
    }
  }

  /** A command found is the units up to the first NUL and from there up to the second: no NUL inside either. */
  lemma CommandShape(u: seq<int>, pts: int)
    ensures CommandIn(u, pts).Some? ==>
      var c := CommandIn(u, pts).value;
      u[..|c.kind| + |c.text|] == c.kind + c.text &&
      |c.kind| > 0 && c.kind[|c.kind| - 1] == 0 && (forall k :: 0 <= k < |c.kind| - 1 ==> c.kind[k] != 0) &&
      |c.text| > 0 && c.text[|c.text| - 1] == 0 && (forall k :: 0 <= k < |c.text| - 1 ==> c.text[k] != 0) &&
      c.pts == pts
  {
    var n1 := NextNul(u, 0);
    NextNulSkips(u, 0);
    if n1 < |u| {
      var n2 := NextNul(u, n1 + 1);
      NextNulSkips(u, n1 + 1);
      if n2 < |u| {
        assert u[..n2 + 1] == u[..n1 + 1] + u[n1 + 1..n2 + 1];
      }
    }
  }

  // ---------------------------------------------------------------------
  // Seek

  /**
   * Outcome of the counting pass of `Seek`: whether it came to an end within
   * the fuel, whether it stopped at a frame past the pts, the frames counted
   * before that, the state and the parser's error chain after it.
   */
  datatype Pass = Pass(ended: bool, found: bool, counter: nat, reader: Reader, errors: seq<string>)

  /**
   * The first loop of `Seek`: advance until `Advance` fails or returns a
   * frame with a pts past `pts`, counting the others on top of `counter`;
   * `log` is the parser's error chain so far.
   */
  function CountPass(env: Env, rd: Reader, streamId: int, pts: int, fuel: nat, counter: nat, log: seq<string>): (p: Pass)
    requires ReaderIn(env, rd)
    ensures ReaderIn(env, p.reader)
    ensures rd.cursor.index <= p.reader.cursor.index
    ensures p.reader.scriptIndex == rd.scriptIndex
    decreases fuel
  {
    if fuel == 0 then Pass(false, false, counter, rd, log)
    else
      var s := AdvanceF(env, rd, streamId);
      if s.outcome != Framed then Pass(true, false, counter, s.reader, log + s.errors)
      else if PtsOf(s.reader.frame) > pts then Pass(true, true, counter, s.reader, log + s.errors)
      else CountPass(env, s.reader, streamId, pts, fuel - 1, counter + 1, log + s.errors)
  }

  /** One round of the first loop of `Seek`: it stops, or counts the frame and goes on from the state after it. */
  lemma CountStep(env: Env, rd: Reader, streamId: int, pts: int, fuel: nat, counter: nat, log: seq<string>)
    requires ReaderIn(env, rd) && fuel > 0
    ensures var s := AdvanceF(env, rd, streamId); var p := CountPass(env, rd, streamId, pts, fuel, counter, log);
      if s.outcome != Framed || PtsOf(s.reader.frame) > pts then
        p == Pass(true, s.outcome == Framed, counter, s.reader, log + s.errors)
      else p == CountPass(env, s.reader, streamId, pts, fuel - 1, counter + 1, log + s.errors)
  {
  }

  /** Outcome of a run of `Advance` calls: whether all succeeded, the state and the parser's error chain after it. */
  datatype Run = Run(ok: bool, reader: Reader, errors: seq<string>)

  /** The second loop of `Seek`: `n` calls of `Advance`, giving up at the first that fails. */
  function Replay(env: Env, rd: Reader, streamId: int, n: nat, log: seq<string>): (r: Run)
    requires ReaderIn(env, rd)
    ensures ReaderIn(env, r.reader)
    ensures rd.cursor.index <= r.reader.cursor.index
    ensures r.reader.scriptIndex == rd.scriptIndex
    decreases n
  {
    if n == 0 then Run(true, rd, log)
    else
      var s := AdvanceF(env, rd, streamId);
      if s.outcome != Framed then Run(false, s.reader, log + s.errors)
      else Replay(env, s.reader, streamId, n - 1, log + s.errors)
  }

  /** `current_packet_index = 0; RemoveAll ()`. */
  function Rewind(rd: Reader): (r: Reader)
    ensures r.queue == [] && r.cursor.index == 0
  {
    rd.(cursor := rd.cursor.(index := 0), queue := [])
  }

  /**
   * `Seek (stream_id, pts)`: only on a seekable source; count from the first
   * packet the frames before the one whose pts passes `pts`, rewind, advance
   * that many frames again, and set `first_pts`.
   */
  function SeekF(env: Env, rd: Reader, streamId: int, pts: int, fuel: nat, log: seq<string>): (r: Run)
    requires ReaderIn(env, rd)
    ensures ReaderIn(env, r.reader)
  {
    if !env.seekable then Run(false, rd, log)
    else
      var p := CountPass(env, Rewind(rd), streamId, pts, fuel, 0, log);
      if !p.ended then Run(false, p.reader, p.errors)
      else
        var r := Replay(env, Rewind(p.reader), streamId, p.counter, p.errors);
        if !r.ok then r
        else r.(reader := r.reader.(firstPts := pts))
  }

  /** Two states of a seekable reader `Advance` treats alike: same queue, same packet index, same script-command stream. */
  predicate Aligned(env: Env, r1: Reader, r2: Reader) {
    env.seekable && r1.queue == r2.queue && r1.cursor.index == r2.cursor.index && 0 <= r1.cursor.index &&
    r1.scriptIndex == r2.scriptIndex
  }

  /** On a seekable source the packet `ReadMore` reads depends on the packet index alone, not on the position. */
  lemma ReadMoreAligned(env: Env, c1: Cursor, c2: Cursor)
    requires env.seekable && c1.pos <= |env.data| && c2.pos <= |env.data| && c1.index == c2.index && 0 <= c1.index
    ensures var m1, m2 := ReadMoreF(env, c1), ReadMoreF(env, c2);
      m1.ok == m2.ok && m1.payloads == m2.payloads && m1.cursor.index == m2.cursor.index
  {
  }

  /** Walks that differ only in position, capacity and errors end alike when neither fails. */
  predicate WalksAlike(w1: Walk, w2: Walk) {
    w1.queue == w2.queue && w1.at == w2.at && w1.target == w2.target && w1.frame == w2.frame &&
    w1.objectNumber == w2.objectNumber && w1.size == w2.size && w1.arrived == w2.arrived &&
    w1.cursor.index == w2.cursor.index && 0 <= w1.cursor.index
  }

  lemma {:induction false} WalkAligned(env: Env, w1: Walk, w2: Walk)
    requires env.seekable && WalkIn(env, w1) && WalkIn(env, w2) && WalksAlike(w1, w2)
    ensures var r1, r2 := WalkF(env, w1), WalkF(env, w2); r1.ok && r2.ok ==> WalksAlike(r1.w, r2.w)
    decreases Budget(env, w1.cursor), |w1.queue| - w1.at, 1
  {
    if w1.at == |w1.queue| {
      FetchAligned(env, w1, w2);
    } else {
      var p := w1.queue[w1.at];
      if !Matches(p, w1.target) {
        WalkAligned(env, w1.(at := w1.at + 1), w2.(at := w2.at + 1));
      } else if |w1.frame| == 0 || p.mediaObjectNumber == w1.objectNumber {
        TakeAligned(env, w1, w2);
      }
    }
  }

  lemma {:induction false} FetchAligned(env: Env, w1: Walk, w2: Walk)
    requires env.seekable && WalkIn(env, w1) && WalkIn(env, w2) && WalksAlike(w1, w2) && w1.at == |w1.queue|
    ensures var r1, r2 := WalkF(env, w1), WalkF(env, w2); r1.ok && r2.ok ==> WalksAlike(r1.w, r2.w)
    decreases Budget(env, w1.cursor), |w1.queue| - w1.at, 0
  {
    var m1, m2 := ReadMoreF(env, w1.cursor), ReadMoreF(env, w2.cursor);
    ReadMoreAligned(env, w1.cursor, w2.cursor);
    ReadMoreBudget(env, w1.cursor);
    if m1.ok {
      WalkAligned(env, w1.(cursor := m1.cursor, queue := w1.queue + m1.payloads, arrived := w1.arrived + m1.payloads),
                       w2.(cursor := m2.cursor, queue := w2.queue + m2.payloads, arrived := w2.arrived + m2.payloads));
    }
  }

  lemma {:induction false} TakeAligned(env: Env, w1: Walk, w2: Walk)
    requires env.seekable && WalkIn(env, w1) && WalkIn(env, w2) && WalksAlike(w1, w2) && w1.at < |w1.queue|
    requires Matches(w1.queue[w1.at], w1.target)
    requires |w1.frame| == 0 || w1.queue[w1.at].mediaObjectNumber == w1.objectNumber
    ensures var r1, r2 := WalkF(env, w1), WalkF(env, w2); r1.ok && r2.ok ==> WalksAlike(r1.w, r2.w)
    decreases Budget(env, w1.cursor), |w1.queue| - w1.at, 0
  {
    var a1, a2 := TakeAlloc(env, w1), TakeAlloc(env, w2);
    if a1.ok && a2.ok {
      WalkAligned(env, Taken(w1, a1.capacity).(errors := w1.errors + a1.errors),
                       Taken(w2, a2.capacity).(errors := w2.errors + a2.errors));
    }
  }

  /** Passes of `Advance` from aligned states that do not fail to allocate end alike, with the same frame. */
  lemma AttemptAligned(env: Env, r1: Reader, r2: Reader, target: int)
    requires ReaderIn(env, r1) && ReaderIn(env, r2) && Aligned(env, r1, r2)
    ensures var a1, a2 := AttemptF(env, r1, target), AttemptF(env, r2, target);
      a1.outcome != NoMemory && a2.outcome != NoMemory ==>
        a1.outcome == a2.outcome && Aligned(env, a1.reader, a2.reader) && a1.reader.frame == a2.reader.frame
  {
    var al1, al2 := ListReady(env, r1), ListReady(env, r2);
    if al1.ok && al2.ok {
      var m1, m2 := Supply(env, r1), Supply(env, r2);
      if r1.queue == [] {
        ReadMoreAligned(env, r1.cursor, r2.cursor);
      }
      if m1.ok && m1.payloads != [] {
        WalkAligned(env, FirstWalk(m1, target, al1.capacity), FirstWalk(m2, target, al2.capacity));
      }
    }
  }

  /** Calls of `Advance` from aligned states that do not fail to allocate end alike, with the same frame. */
  lemma {:induction false} AdvanceAligned(env: Env, r1: Reader, r2: Reader, target: int)
    requires ReaderIn(env, r1) && ReaderIn(env, r2) && Aligned(env, r1, r2)
    ensures var s1, s2 := AdvanceF(env, r1, target), AdvanceF(env, r2, target);
      s1.outcome != NoMemory && s2.outcome != NoMemory ==>
        s1.outcome == s2.outcome && Aligned(env, s1.reader, s2.reader) && s1.reader.frame == s2.reader.frame
    decreases Budget(env, r1.cursor), |r1.queue|
  {
    var a1, a2 := AttemptF(env, r1, target), AttemptF(env, r2, target);
    AttemptAligned(env, r1, r2, target);
    if a1.outcome == Framed && IsScriptFrame(a1.reader) && a2.outcome == Framed {
      AdvanceAligned(env, Intercept(env, a1.reader), Intercept(env, a2.reader), target);
    }
  }

  /** The next `Advance` for the stream returns a frame past `pts`, unless an allocation fails. */
  predicate LandsPast(env: Env, rd: Reader, streamId: int, pts: int)
    requires ReaderIn(env, rd)
  {
    var s := AdvanceF(env, rd, streamId);
    s.outcome != NoMemory ==> s.outcome == Framed && PtsOf(s.reader.frame) > pts
  }

  /** The next `Advance` for the stream returns `frame`, unless an allocation fails. */
  predicate LandsOn(env: Env, rd: Reader, streamId: int, frame: seq<Payload>)
    requires ReaderIn(env, rd)
  {
    var s := AdvanceF(env, rd, streamId);
    s.outcome != NoMemory ==> s.outcome == Framed && s.reader.frame == frame
  }

  /**
   * A counting pass that stops at a frame past `pts` has counted (beyond
   * `counter`) exactly the frames a replay of as many `Advance` calls passes:
   * that replay succeeds, and the `Advance` after it returns the frame the
   * pass stopped at, which is past `pts`.
   */
  lemma {:induction false} CountIsReplay(env: Env, rd: Reader, streamId: int, pts: int, fuel: nat, counter: nat, log: seq<string>)
    requires ReaderIn(env, rd)
    ensures CountFinds(env, rd, streamId, pts, fuel, counter, log)
    decreases fuel, 1
  {
    if fuel > 0 {
      var s := AdvanceF(env, rd, streamId);
      if s.outcome == Framed && PtsOf(s.reader.frame) <= pts {
        CountGoesOn(env, rd, streamId, pts, fuel, counter, log, s);
      } else {
        CountStops(env, rd, streamId, pts, fuel, counter, log);
      }
    }
  }

  /** What `CountIsReplay` states about one counting pass. */
  predicate CountFinds(env: Env, rd: Reader, streamId: int, pts: int, fuel: nat, counter: nat, log: seq<string>)
    requires ReaderIn(env, rd)
  {
    PassFinds(env, rd, streamId, pts, counter, log, CountPass(env, rd, streamId, pts, fuel, counter, log))
  }

  /** A pass `p` that found its frame counted frames that a replay from `rd` passes before landing past `pts`. */
  predicate PassFinds(env: Env, rd: Reader, streamId: int, pts: int, counter: nat, log: seq<string>, p: Pass)
    requires ReaderIn(env, rd)
  {
    p.found ==> counter <= p.counter && ReplayFinds(env, rd, streamId, p.counter - counter, log, pts, p.reader.frame)
  }

  /** `n` calls of `Advance` succeed, and the next one returns `frame`, which is past `pts`. */
  predicate ReplayFinds(env: Env, rd: Reader, streamId: int, n: nat, log: seq<string>, pts: int, frame: seq<Payload>)
    requires ReaderIn(env, rd)
  {
    RunLandsPast(env, streamId, pts, Replay(env, rd, streamId, n, log), frame)
  }

  /** The run `q` succeeded and the next `Advance` after it returns `frame`, which is past `pts`. */
  predicate RunLandsPast(env: Env, streamId: int, pts: int, q: Run, frame: seq<Payload>)
  {
    q.ok && ReaderIn(env, q.reader) &&
    var s := AdvanceF(env, q.reader, streamId); s.outcome == Framed && s.reader.frame == frame && PtsOf(frame) > pts
  }

  /** A pass whose next `Advance` does not frame, or frames past `pts`, finds with no further frame to replay. */
  lemma CountStops(env: Env, rd: Reader, streamId: int, pts: int, fuel: nat, counter: nat, log: seq<string>)
    requires ReaderIn(env, rd) && fuel > 0
    requires var s := AdvanceF(env, rd, streamId); s.outcome != Framed || PtsOf(s.reader.frame) > pts
    ensures CountFinds(env, rd, streamId, pts, fuel, counter, log)
  {
    CountStep(env, rd, streamId, pts, fuel, counter, log);
    assert Replay(env, rd, streamId, 0, log).reader == rd;
  }

  /** A pass whose next `Advance`, `s`, frames before `pts` finds what the pass after that frame finds. */
  lemma {:induction false} CountGoesOn(env: Env, rd: Reader, streamId: int, pts: int, fuel: nat, counter: nat, log: seq<string>,
                                       s: Step)
    requires ReaderIn(env, rd) && fuel > 0
    requires AdvanceF(env, rd, streamId) == s && s.outcome == Framed && PtsOf(s.reader.frame) <= pts
    ensures CountFinds(env, rd, streamId, pts, fuel, counter, log)
    decreases fuel, 0
  {
    CountIsReplay(env, s.reader, streamId, pts, fuel - 1, counter + 1, log + s.errors);
    CountFramed(env, rd, streamId, pts, fuel, counter, log, s);
  }

  /** What the pass after a framing `Advance` before `pts` finds, the pass before that `Advance` finds. */
  lemma CountFramed(env: Env, rd: Reader, streamId: int, pts: int, fuel: nat, counter: nat, log: seq<string>,
                    s: Step)
    requires ReaderIn(env, rd) && fuel > 0
    requires AdvanceF(env, rd, streamId) == s && s.outcome == Framed && PtsOf(s.reader.frame) <= pts
    ensures CountFinds(env, s.reader, streamId, pts, fuel - 1, counter + 1, log + s.errors) ==>
            CountFinds(env, rd, streamId, pts, fuel, counter, log)
  {
    if CountFinds(env, s.reader, streamId, pts, fuel - 1, counter + 1, log + s.errors) {
      var p1 := CountPass(env, s.reader, streamId, pts, fuel - 1, counter + 1, log + s.errors);
      CountStep(env, rd, streamId, pts, fuel, counter, log);
      PassFindsStep(env, rd, streamId, pts, counter, log, s.reader, s.errors, p1);
    }
  }

  /** A pass found from the state after a framing `Advance` is found from the state before it, one frame earlier. */
  lemma PassFindsStep(env: Env, rd: Reader, streamId: int, pts: int, counter: nat, log: seq<string>,
                      next: Reader, errors: seq<string>, p: Pass)
    requires ReaderIn(env, rd) && AdvanceF(env, rd, streamId) == Step(Framed, next, errors)
    requires PassFinds(env, next, streamId, pts, counter + 1, log + errors, p)
    ensures PassFinds(env, rd, streamId, pts, counter, log, p)
  {
    if p.found {
      ReplayFramed(env, rd, streamId, p.counter - counter, log);
    }
  }

  /** A replay whose first `Advance` frames goes on from the state after it. */
  lemma ReplayFramed(env: Env, rd: Reader, streamId: int, n: nat, log: seq<string>)
    requires ReaderIn(env, rd) && n > 0 && AdvanceF(env, rd, streamId).outcome == Framed
    ensures var s := AdvanceF(env, rd, streamId);
      Replay(env, rd, streamId, n, log) == Replay(env, s.reader, streamId, n - 1, log + s.errors)
  {
  }

  /** A replay that succeeds is a first `Advance` that frames, followed by a replay one shorter that succeeds. */
  lemma ReplayStep(env: Env, rd: Reader, streamId: int, n: nat, log: seq<string>)
    requires ReaderIn(env, rd) && n > 0
    ensures var q, s := Replay(env, rd, streamId, n, log), AdvanceF(env, rd, streamId);
      q.ok ==> s.outcome == Framed && q == Replay(env, s.reader, streamId, n - 1, log + s.errors)
  {
  }

  /** Replays of the same length from aligned states that both succeed end aligned, whatever the errors before them. */
  lemma {:induction false} ReplayAligned(env: Env, r1: Reader, r2: Reader, streamId: int, n: nat, log1: seq<string>, log2: seq<string>)
    requires ReaderIn(env, r1) && ReaderIn(env, r2) && Aligned(env, r1, r2)
    ensures var q1, q2 := Replay(env, r1, streamId, n, log1), Replay(env, r2, streamId, n, log2);
      q1.ok && q2.ok ==> Aligned(env, q1.reader, q2.reader)
    decreases n
  {
    if n > 0 {
      var s1, s2 := AdvanceF(env, r1, streamId), AdvanceF(env, r2, streamId);
      ReplayStep(env, r1, streamId, n, log1);
      ReplayStep(env, r2, streamId, n, log2);
      if s1.outcome == Framed && s2.outcome == Framed {
        AdvanceAligned(env, r1, r2, streamId);
        ReplayAligned(env, s1.reader, s2.reader, streamId, n - 1, log1 + s1.errors, log2 + s2.errors);
      }
    }
  }

  /** `first_pts` plays no part in `Advance`. */
  lemma {:induction false} AdvanceIgnoresFirstPts(env: Env, rd: Reader, streamId: int, firstPts: int)
    requires ReaderIn(env, rd)
    ensures AdvanceF(env, rd.(firstPts := firstPts), streamId).outcome == AdvanceF(env, rd, streamId).outcome
    ensures AdvanceF(env, rd.(firstPts := firstPts), streamId).reader.frame == AdvanceF(env, rd, streamId).reader.frame
    decreases Budget(env, rd.cursor), |rd.queue|
  {
    var rd2 := rd.(firstPts := firstPts);
    var a1, a2 := AttemptF(env, rd, streamId), AttemptF(env, rd2, streamId);
    assert a2 == a1.(reader := a1.reader.(firstPts := firstPts));
    if a1.outcome == Framed && IsScriptFrame(a1.reader) {
      AdvanceAgain(env, rd, streamId);
      AdvanceAgain(env, rd2, streamId);
      var i1 := Intercept(env, a1.reader);
      assert Intercept(env, a2.reader) == i1.(firstPts := firstPts);
      AdvanceIgnoresFirstPts(env, i1, streamId, firstPts);
    } else {
      AdvanceDone(env, rd, streamId);
      AdvanceDone(env, rd2, streamId);
    }
  }

  /**
   * After a `Seek` that succeeds and whose counting pass stopped at a frame
   * past `pts`, the next `Advance` for the stream returns a frame past `pts`
   * (unless an allocation fails): the second pass stops just before the frame
   * the first one found, and that `Advance` returns exactly that frame.
   */
  lemma SeekLandsBeforeFound(env: Env, rd: Reader, streamId: int, pts: int, fuel: nat, log: seq<string>)
    requires ReaderIn(env, rd)
    ensures var r := SeekF(env, rd, streamId, pts, fuel, log);
      r.ok && CountPass(env, Rewind(rd), streamId, pts, fuel, 0, log).found ==> LandsPast(env, r.reader, streamId, pts)
    ensures var r, p := SeekF(env, rd, streamId, pts, fuel, log), CountPass(env, Rewind(rd), streamId, pts, fuel, 0, log);
      r.ok && p.found ==> LandsOn(env, r.reader, streamId, p.reader.frame)
  {
    if env.seekable {
      var p := CountPass(env, Rewind(rd), streamId, pts, fuel, 0, log);
      var q := Replay(env, Rewind(p.reader), streamId, p.counter, p.errors);
      if p.found && q.ok {
        CountIsReplay(env, Rewind(rd), streamId, pts, fuel, 0, log);
        var q0 := Replay(env, Rewind(rd), streamId, p.counter, log);
        ReplayAligned(env, Rewind(rd), Rewind(p.reader), streamId, p.counter, log, p.errors);
        AdvanceAligned(env, q0.reader, q.reader, streamId);
      }
      AdvanceIgnoresFirstPts(env, q.reader, streamId, pts);
    }
  }

  /** A `Seek` fails on a source that cannot seek, and a successful one sets `first_pts`. */
  lemma SeekOutcome(env: Env, rd: Reader, streamId: int, pts: int, fuel: nat, log: seq<string>)
    requires ReaderIn(env, rd)
    ensures var r := SeekF(env, rd, streamId, pts, fuel, log);
      (!env.seekable ==> !r.ok && r.reader == rd && r.errors == log) && (r.ok ==> r.reader.firstPts == pts)
  {
  }
}

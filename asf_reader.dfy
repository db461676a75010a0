/**
 * `ASFFrameReader` as a class: the queue of payloads (`first` .. `last`),
 * the NULL-terminated payload list of the current frame, the packet cursor
 * and the script-command stream. Each method is proved against the function
 * of `AsfFrames` that specifies it, applied to the state before the call.
 */
module AsfReader {
  import opened AsfCore
  import opened AsfSource
  import opened AsfLayout
  import opened AsfPacket
  import opened AsfParser
  import opened AsfFrames

  /** Whether a stream slot holds a stream whose type is the media-command GUID. */
  predicate IsMediaCommand(hooks: Hooks, stream: Option<HeaderObject>) {
    stream.Some? && hooks.guidType(StreamType(stream.value)) == MediaCommandKind
  }

  class FrameReader {
    const parser: Parser
    /** The queue of payloads not yet in a frame, `first` to `last`. */
    var queue: seq<Payload>
    /** `payloads`: NULL, or a list of `capacity + 1` slots; the frame's payloads come first, then NULLs. */
    var payloads: array?<Option<Payload>>
    /** The frame's payloads, the ones before the first NULL slot of `payloads`. */
    ghost var frame: seq<Payload>
    /** `payloads_size`. */
    var capacity: int
    var size: int
    var currentPacketIndex: int
    var eof: bool
    var scriptIndex: int
    var firstPts: int
    /** The calls made to the parser's script-command callback. */
    var commands: seq<Command>

    /** The list and the frame agree. */
    ghost predicate ListHolds()
      reads this`capacity, this`payloads, this`frame, payloads
    {
      0 <= capacity &&
      if payloads == null then capacity == 0 && frame == []
      else
        payloads.Length == capacity + 1 && |frame| <= capacity &&
        (forall j :: 0 <= j < |frame| ==> payloads[j] == Some(frame[j])) &&
        (forall j :: |frame| <= j < payloads.Length ==> payloads[j].None?)
    }

    ghost predicate Valid()
      reads this`capacity, this`payloads, this`frame, payloads, parser, parser.source
    {
      parser.Valid() && parser.fileProperties.Some? && ListHolds()
    }

    /** What stays fixed while frames are read. */
    function Env(): Env
      reads parser
      requires parser.fileProperties.Some?
    {
      AsfFrames.Env(parser.hooks.decodePacket, parser.source.data, parser.source.seekable,
                    parser.PacketLayout(), parser.header, parser.scriptCallbackSet)
    }

    function Cursor(): Cursor
      reads this`currentPacketIndex, this`eof, parser.source
    {
      AsfFrames.Cursor(currentPacketIndex, parser.source.pos, eof)
    }

    /** The reader's state as the value the specification functions take. */
    ghost function State(): Reader
      reads this, parser.source
    {
      Reader(Cursor(), queue, frame, payloads != null, capacity, size, scriptIndex, firstPts, commands)
    }

    /** `CanSeek ()`: whether the parser's source can seek. */
    function CanSeek(): bool
      reads this
    {
      parser.source.seekable
    }

    /**
     * The constructor: no queue and no list, the cursor at packet 0 of a
     * seekable source (-1, the current position, otherwise), `first_pts` the
     * preroll of the file properties, and the script-command stream looked up.
     */
    constructor (p: Parser)
      requires p.Valid() && p.fileProperties.Some?
      ensures Valid() && parser == p
      ensures State() == Reader(AsfFrames.Cursor(if p.source.seekable then 0 else -1, p.source.pos, false),
                                [], [], false, 0, 0, scriptIndex, Preroll(p.fileProperties.value), [])
      ensures scriptIndex == 0 <==> forall i :: 1 <= i <= 127 ==> !IsMediaCommand(p.hooks, p.GetStream(i))
      ensures scriptIndex != 0 ==>
        1 <= scriptIndex <= 127 && IsMediaCommand(p.hooks, p.GetStream(scriptIndex)) &&
        forall i :: 1 <= i < scriptIndex ==> !IsMediaCommand(p.hooks, p.GetStream(i))
    {
      parser := p;
      queue := [];
      size := 0;
      payloads := null;
      frame := [];
      currentPacketIndex := if p.source.seekable then 0 else -1;
      capacity := 0;
      eof := false;
      firstPts := Preroll(p.fileProperties.value);
      commands := [];
      scriptIndex := 0;
      new;
      FindScriptCommandStream();
    }

    /**
     * `FindScriptCommandStream`: unless one is known, the script-command
     * stream is the lowest stream number whose stream type is the
     * media-command GUID; without one the index is left as it was.
     */
    method FindScriptCommandStream()
      requires Valid()
      modifies this`scriptIndex
      ensures Valid()
      ensures old(scriptIndex) > 0 ==> scriptIndex == old(scriptIndex)
      ensures old(scriptIndex) <= 0 ==>
        (scriptIndex == old(scriptIndex) <==> forall i :: 1 <= i <= 127 ==> !IsMediaCommand(parser.hooks, parser.GetStream(i)))
      ensures old(scriptIndex) <= 0 && scriptIndex != old(scriptIndex) ==>
        1 <= scriptIndex <= 127 && IsMediaCommand(parser.hooks, parser.GetStream(scriptIndex)) &&
        forall i :: 1 <= i < scriptIndex ==> !IsMediaCommand(parser.hooks, parser.GetStream(i))
    {
      if scriptIndex > 0 {
        return;
      }
      var i := 1;
      while i <= 127
        invariant 1 <= i <= 128
        invariant forall j :: 1 <= j < i ==> !IsMediaCommand(parser.hooks, parser.GetStream(j))
      {
        var stream := parser.GetStream(i);
        if stream.Some? && parser.hooks.guidType(StreamType(stream.value)) == MediaCommandKind {
          scriptIndex := i;
          assert IsMediaCommand(parser.hooks, parser.GetStream(i));
          return;
        }
        i := i + 1;
      }
    }

    /** `Pts ()`, `StreamId ()` and `IsKeyFrame ()`: fields of the first payload of the list, 0 and false without one. */
    function Pts(): (r: int)
      reads this`capacity, this`payloads, this`frame, payloads
      requires ListHolds()
      ensures r == PtsOf(frame)
    {
      if payloads == null || payloads[0].None? then 0 else payloads[0].value.presentationTime
    }

    function StreamId(): (r: int)
      reads this`capacity, this`payloads, this`frame, payloads
      requires ListHolds()
      ensures r == StreamIdOf(frame)
    {
      if payloads == null || payloads[0].None? then 0 else payloads[0].value.streamId
    }

    function IsKeyFrame(): (r: bool)
      reads this`capacity, this`payloads, this`frame, payloads
      requires ListHolds()
      ensures r == IsKeyFrameOf(frame)
    {
      payloads != null && payloads[0].Some? && payloads[0].value.isKeyFrame
    }

    /** `ReadMore`: read the packet at the cursor and append its payloads to the queue. */
    method ReadMore() returns (ok: bool)
      requires Valid()
      modifies this`queue, this`currentPacketIndex, this`eof, parser.source
      ensures Valid()
      ensures var m := ReadMoreF(old(Env()), old(Cursor()));
        ok == m.ok && Cursor() == m.cursor && queue == old(queue) + m.payloads
    {
      if UInt32(currentPacketIndex) >= parser.GetPacketCount() {
        eof := true;
        return false;
      }
      var read, ps := parser.ReadPacket(currentPacketIndex);
      if !read {
        return false;
      }
      if CanSeek() {
        currentPacketIndex := currentPacketIndex + 1;
      }
      ghost var pos, index := parser.source.pos, currentPacketIndex;
      var i := 0;
      while i < |ps|
        invariant 0 <= i <= |ps|
        invariant queue == old(queue) + ps[..i]
        invariant parser.source.pos == pos && currentPacketIndex == index && eof == old(eof) && parser.Valid()
      {
        queue := queue + [ps[i]];
        i := i + 1;
      }
      assert ps[..i] == ps;
      return true;
    }

    /**
     * `ResizeList (size)`: keep a list that already covers the size;
     * otherwise allocate `size + 1` NULL slots through the parser's `Malloc`
     * and copy the old list's `payloads_size` slots into it.
     */
    method ResizeList(n: int) returns (ok: bool)
      requires Valid() && n > 0
      modifies this`payloads, this`capacity, parser.errors
      ensures Valid() && (payloads == old(payloads) || fresh(payloads))
      ensures var a := ResizeF(old(Env()), old(payloads) != null, old(capacity), n);
        ok == a.ok && (payloads != null) == a.hasList && capacity == a.capacity &&
        parser.errors.messages == old(parser.errors.messages) + a.errors
    {
      if capacity >= n && n > 0 {
        return true;
      }
      var granted := parser.Malloc(ListBytes(n));
      if !granted {
        return false;
      }
      var list := new Option<Payload>[n + 1](_ => None);
      if payloads != null {
        CopySlots(payloads, list, capacity);
        assert forall j :: 0 <= j < |frame| ==> list[j] == Some(frame[j]);
      }
      assert forall j :: |frame| <= j < list.Length ==> list[j].None?;
      payloads := list;
      capacity := n;
      return true;
    }

    /** `memcpy` of the first `count` slots of one list into another. */
    static method CopySlots(source: array<Option<Payload>>, target: array<Option<Payload>>, count: int)
      requires source != target && 0 <= count <= source.Length && count <= target.Length
      modifies target
      ensures forall j :: 0 <= j < count ==> target[j] == source[j]
      ensures forall j :: count <= j < target.Length ==> target[j] == old(target[j])
    {
      var j := 0;
      while j < count
        invariant 0 <= j <= count
        invariant forall k :: 0 <= k < j ==> target[k] == source[k]
        invariant forall k :: j <= k < target.Length ==> target[k] == old(target[k])
      {
        target[j] := source[j];
        j := j + 1;
      }
    }

    /** The walk's variables, with the reader's fields for the ones `Advance` keeps in the reader. */
    ghost function WalkAt(at: nat, target: int, objectNumber: int, errors: seq<string>, arrived: seq<Payload>): Walk
      reads this`currentPacketIndex, this`eof, this`queue, this`frame, this`capacity, this`size, parser.source
    {
      Walk(Cursor(), queue, at, target, frame, objectNumber, capacity, size, errors, arrived)
    }

    /** A reader whose list is consistent is one `Advance` can start from. */
    lemma ValidReader()
      requires Valid()
      ensures ReaderIn(Env(), State())
    {
    }

    /**
     * `Seek (stream_id, pts)`: only on a seekable source. From the first
     * packet, count the frames of the stream before the first whose pts
     * passes `pts`; go back to the first packet and advance that many frames
     * again; frames before `pts` are then not wanted. `fuel` bounds the
     * counting loop, which need not end on its own.
     */
    method Seek(streamId: int, pts: int, fuel: nat) returns (ok: bool)
      requires Valid()
      modifies this`queue, this`payloads, this`capacity, this`size, this`currentPacketIndex, this`eof, this`frame
      modifies this`commands, this`firstPts, payloads, parser.source, parser.errors
      ensures Valid() && (payloads == old(payloads) || fresh(payloads))
      ensures var r := SeekF(old(Env()), old(State()), streamId, pts, fuel, old(parser.errors.messages));
        ok == r.ok && State() == r.reader && parser.errors.messages == r.errors
    {
      ok := false;
      if CanSeek() {
        RewindQueue();
        var counter, ended := CountFrames(streamId, pts, fuel);
        if ended {
          ok := Relocate(streamId, pts, counter);
        }
      }
    }

    /** The end of `Seek`: from the first packet, advance `counter` frames again, then drop frames before `pts`. */
    method Relocate(streamId: int, pts: int, counter: nat) returns (ok: bool)
      requires Valid()
      modifies this`queue, this`payloads, this`capacity, this`size, this`currentPacketIndex, this`eof, this`frame
      modifies this`commands, this`firstPts, payloads, parser.source, parser.errors
      ensures Valid() && (payloads == old(payloads) || fresh(payloads))
      ensures var r := Replay(old(Env()), AsfFrames.Rewind(old(State())), streamId, counter, old(parser.errors.messages));
        ok == r.ok && State() == (if r.ok then r.reader.(firstPts := pts) else r.reader) && parser.errors.messages == r.errors
    {
      RewindQueue();
      ok := ReplayFrames(streamId, counter);
      if ok {
        firstPts := pts;
      }
    }

    /** `current_packet_index = 0; RemoveAll ()`: back to the first packet with an empty queue. */
    method RewindQueue()
      modifies this`currentPacketIndex, this`queue
      ensures State() == AsfFrames.Rewind(old(State()))
    {
      currentPacketIndex := 0;
      RemoveAll();
    }

    /** The first loop of `Seek`: advance while frames come, counting those whose pts does not pass `pts`. */
    method CountFrames(streamId: int, pts: int, fuel: nat) returns (counter: nat, ended: bool)
      requires Valid()
      modifies this`queue, this`payloads, this`capacity, this`size, this`currentPacketIndex, this`eof, this`frame
      modifies this`commands, payloads, parser.source, parser.errors
      ensures Valid() && (payloads == old(payloads) || fresh(payloads))
      ensures var p := CountPass(old(Env()), old(State()), streamId, pts, fuel, 0, old(parser.errors.messages));
        counter == p.counter && ended == p.ended && State() == p.reader && parser.errors.messages == p.errors
    {
      ghost var env := Env();
      ghost var p0 := CountPass(env, State(), streamId, pts, fuel, 0, parser.errors.messages);
      counter := 0;
      var left := fuel;
      while left > 0
        invariant Valid() && (payloads == old(payloads) || fresh(payloads)) && Env() == env && ReaderIn(env, State())
        invariant CountPass(env, State(), streamId, pts, left, counter, parser.errors.messages) == p0
        decreases left
      {
        CountStep(env, State(), streamId, pts, left, counter, parser.errors.messages);
        var stop := CountRound(streamId, pts);
        if stop {
          return counter, true;
        }
        ValidReader();
        counter := counter + 1;
        left := left - 1;
      }
      ended := false;
    }

    /** One round of the first loop of `Seek`: whether it stops there, for lack of a frame or at one past `pts`. */
    method CountRound(streamId: int, pts: int) returns (stop: bool)
      requires Valid()
      modifies this`queue, this`payloads, this`capacity, this`size, this`currentPacketIndex, this`eof, this`frame
      modifies this`commands, payloads, parser.source, parser.errors
      ensures Valid() && (payloads == old(payloads) || fresh(payloads))
      ensures var s := AdvanceF(old(Env()), old(State()), streamId);
        stop == (s.outcome != Framed || PtsOf(s.reader.frame) > pts) && State() == s.reader &&
        parser.errors.messages == old(parser.errors.messages) + s.errors
    {
      var advanced := Advance(streamId);
      stop := !advanced || Pts() > pts;
    }

    /** The second loop of `Seek`: `n` calls of `Advance`, giving up at the first that fails. */
    method ReplayFrames(streamId: int, n: nat) returns (ok: bool)
      requires Valid()
      modifies this`queue, this`payloads, this`capacity, this`size, this`currentPacketIndex, this`eof, this`frame
      modifies this`commands, payloads, parser.source, parser.errors
      ensures Valid() && (payloads == old(payloads) || fresh(payloads))
      ensures var r := Replay(old(Env()), old(State()), streamId, n, old(parser.errors.messages));
        ok == r.ok && State() == r.reader && parser.errors.messages == r.errors
    {
      ghost var env := Env();
      ghost var r0 := Replay(env, State(), streamId, n, parser.errors.messages);
      var counter := n;
      while counter > 0
        invariant Valid() && (payloads == old(payloads) || fresh(payloads)) && Env() == env && ReaderIn(env, State())
        invariant Replay(env, State(), streamId, counter, parser.errors.messages) == r0
        decreases counter
      {
        var advanced := Advance(streamId);
        if !advanced {
          return false;
        }
        counter := counter - 1;
      }
      return true;
    }

    /**
     * `Advance (stream_id)`: read the next frame of the stream asked for (0:
     * any stream). A frame of the script-command stream is handed to
     * `ReadScriptCommand` and the search starts again.
     */
    method Advance(target: int) returns (ok: bool)
      requires Valid()
      modifies this`queue, this`payloads, this`capacity, this`size, this`currentPacketIndex, this`eof, this`frame
      modifies this`commands, payloads, parser.source, parser.errors
      ensures Valid() && (payloads == old(payloads) || fresh(payloads))
      ensures var s := AdvanceF(old(Env()), old(State()), target);
        ok == (s.outcome == Framed) && State() == s.reader &&
        parser.errors.messages == old(parser.errors.messages) + s.errors
    {
      ghost var env := Env();
      ghost var s0 := AdvanceF(env, State(), target);
      ghost var errors: seq<string> := [];
      ghost var base := parser.errors.messages;
      while true
        invariant Valid() && (payloads == old(payloads) || fresh(payloads)) && Env() == env
        invariant ReaderIn(env, State())
        invariant parser.errors.messages == base + errors
        invariant var s := AdvanceF(env, State(), target); Step(s.outcome, s.reader, errors + s.errors) == s0
        decreases Budget(env, Cursor()), |queue|
      {
        ghost var rd := State();
        ghost var a := AttemptF(env, rd, target);
        var again, outcome := AttemptOnce(target);
        MessagesGrow(base, errors, a.errors);
        if !again {
          AdvanceDone(env, rd, target);
          errors := errors + a.errors;
          return outcome == Framed;
        }
        AdvanceAgain(env, rd, target);
        ghost var s := AdvanceF(env, State(), target);
        MessagesGrow(errors, a.errors, s.errors);
        errors := errors + a.errors;
      }
    }

    /** Messages added in two rounds are the messages of both, in order. */
    static lemma MessagesGrow(base: seq<string>, first: seq<string>, second: seq<string>)
      ensures base + first + second == base + (first + second)
    {
    }

    /** One pass from `start` to `end_frame`, and the script command a script-command frame carries. */
    method AttemptOnce(target: int) returns (again: bool, outcome: Outcome)
      requires Valid()
      modifies this`queue, this`payloads, this`capacity, this`size, this`currentPacketIndex, this`eof, this`frame
      modifies this`commands, payloads, parser.source, parser.errors
      ensures Valid() && (payloads == old(payloads) || fresh(payloads))
      ensures var a := AttemptF(old(Env()), old(State()), target);
        again == (a.outcome == Framed && IsScriptFrame(a.reader)) && outcome == a.outcome &&
        State() == (if again then Intercept(old(Env()), a.reader) else a.reader) &&
        parser.errors.messages == old(parser.errors.messages) + a.errors
    {
      AttemptFramed(Env(), State(), target);
      outcome := Attempt(target);
      again := outcome == Framed && StreamId() == scriptIndex && scriptIndex > 0;
      if again {
        ReadScriptCommand();
      }
    }

    /**
     * `Advance` from `start` to `end_frame`: make sure the payload list
     * exists, drop the previous frame, make sure the queue holds payloads,
     * and collect the next frame.
     */
    method Attempt(target: int) returns (outcome: Outcome)
      requires Valid()
      modifies this`queue, this`payloads, this`capacity, this`size, this`currentPacketIndex, this`eof, this`frame
      modifies payloads, parser.source, parser.errors
      ensures Valid() && (payloads == old(payloads) || fresh(payloads))
      ensures var a := AttemptF(old(Env()), old(State()), target);
        outcome == a.outcome && State() == a.reader && parser.errors.messages == old(parser.errors.messages) + a.errors
    {
      ghost var env := Env();
      ghost var rd := State();
      ghost var al := ListReady(env, rd);
      var ready := PrepareList();
      if !ready {
        return NoMemory;
      }
      ghost var m := Supply(env, rd);
      var supplied := SupplyQueue();
      if !supplied {
        assert State() == rd.(hasList := true, capacity := al.capacity, frame := [], cursor := m.cursor);
        return NoData;
      }
      size := 0;
      ghost var w := WalkF(env, FirstWalk(m, target, al.capacity));
      var collected := Collect(target);
      outcome := if collected then Framed else NoMemory;
      assert State() == rd.(hasList := true, cursor := w.w.cursor, queue := w.w.queue, frame := w.w.frame,
                            capacity := w.w.capacity, size := w.w.size);
    }

    /**
     * The start of `Advance`: a list of two payloads when there is none yet
     * (its failure is reported as packet corruption), otherwise the slots of
     * the previous frame are cleared.
     */
    method PrepareList() returns (ok: bool)
      requires Valid()
      modifies this`payloads, this`capacity, this`frame, payloads, parser.errors
      ensures Valid() && (payloads == old(payloads) || fresh(payloads))
      ensures var al := ListReady(old(Env()), old(State()));
        ok == al.ok &&
        (ok ==> payloads != null && capacity == al.capacity && frame == [] &&
                parser.errors.messages == old(parser.errors.messages)) &&
        (!ok ==> payloads == null && capacity == old(capacity) && frame == old(frame) &&
                 parser.errors.messages == old(parser.errors.messages) + al.errors + [PacketCorruption])
    {
      if payloads == null {
        ok := ResizeList(2);
        if !ok {
          parser.AddError(PacketCorruption);
        }
      } else {
        ClearFrame();
        ok := true;
      }
    }

    /** The queue `Advance` walks: when it is empty, the payloads of the packet `ReadMore` reads. */
    method SupplyQueue() returns (ok: bool)
      requires Valid()
      modifies this`queue, this`currentPacketIndex, this`eof, parser.source
      ensures Valid()
      ensures var m := Supply(old(Env()), old(State()));
        ok == (m.ok && m.payloads != []) && Cursor() == m.cursor && queue == m.payloads
    {
      ok := true;
      if queue == [] {
        ok := ReadMore();
        ok := ok && queue != [];
      }
    }

    /** The payloads of the previous frame are dropped: every slot of the list is cleared. */
    method ClearFrame()
      requires Valid() && payloads != null
      modifies payloads, this`frame
      ensures Valid() && frame == []
    {
      var i := 0;
      while payloads[i].Some?
        invariant 0 <= i <= |frame| && payloads.Length == capacity + 1 && |frame| <= capacity
        invariant forall j :: 0 <= j < i ==> payloads[j] == None
        invariant forall j :: i <= j < |frame| ==> payloads[j] == Some(frame[j])
        invariant forall j :: |frame| <= j < payloads.Length ==> payloads[j] == None
        decreases |frame| - i
      {
        payloads[i] := None;
        i := i + 1;
      }
      frame := [];
    }

    /**
     * The loop of `Advance`, from `current = first` with an empty frame to
     * `end_frame` (true) or to a failed `ResizeList` (false).
     */
    method Collect(target: int) returns (ok: bool)
      requires Valid() && payloads != null && frame == [] && size == 0
      modifies this`queue, this`payloads, this`capacity, this`size, this`currentPacketIndex, this`eof, this`frame
      modifies payloads, parser.source, parser.errors
      ensures Valid() && payloads != null && (payloads == old(payloads) || fresh(payloads))
      ensures var w := WalkF(old(Env()), Walk(old(Cursor()), old(queue), 0, target, [], 0, old(capacity), 0, [], []));
        ok == w.ok && Cursor() == w.w.cursor && queue == w.w.queue && frame == w.w.frame &&
        capacity == w.w.capacity && size == w.w.size && parser.errors.messages == old(parser.errors.messages) + w.w.errors
    {
      ghost var env := Env();
      ghost var w0 := WalkAt(0, target, 0, [], []);
      ghost var errors: seq<string> := [];
      ghost var arrived: seq<Payload> := [];
      var streamId := target;
      var objectNumber := 0;
      var count := 0;
      var at := 0;
      while true
        invariant Valid() && payloads != null && (payloads == old(payloads) || fresh(payloads))
        invariant Env() == env && count == |frame| && 0 <= at <= |queue|
        invariant parser.errors.messages == old(parser.errors.messages) + errors
        invariant WalkF(env, WalkAt(at, streamId, objectNumber, errors, arrived)) == WalkF(env, w0)
        decreases Budget(env, Cursor()), |queue| - at
      {
        if at == |queue| {
          var more;
          more, arrived := FetchStep(at, streamId, objectNumber, errors, arrived);
          if !more {
            ok := true;
            assert WalkF(env, w0) == WalkEnd(ok, WalkAt(at, streamId, objectNumber, errors, arrived));
            break;
          }
        } else {
          var p := queue[at];
          if !(streamId == 0 || p.streamId == streamId) {
            at := at + 1;
          } else if count > 0 && p.mediaObjectNumber != objectNumber {
            assert WalkF(env, WalkAt(at, streamId, objectNumber, errors, arrived)) ==
                   WalkEnd(true, WalkAt(at, streamId, objectNumber, errors, arrived));
            ok := true;
            assert WalkF(env, w0) == WalkEnd(ok, WalkAt(at, streamId, objectNumber, errors, arrived));
            break;
          } else {
            var taken;
            taken, streamId, objectNumber, errors := TakeStep(at, streamId, objectNumber, count, errors, arrived, old(parser.errors.messages));
            if !taken {
              ok := false;
              assert WalkF(env, w0) == WalkEnd(ok, WalkAt(at, streamId, objectNumber, errors, arrived));
              break;
            }
            count := count + 1;
          }
        }
      }
      assert WalkF(env, w0) == WalkEnd(ok, WalkAt(at, streamId, objectNumber, errors, arrived));
    }

    /** The fetch step of the loop of `Advance`: read the next packet once the queue is used up. */
    method FetchStep(ghost at: nat, ghost target: int, ghost objectNumber: int, ghost errors: seq<string>,
                     ghost arrived: seq<Payload>) returns (more: bool, ghost arrived': seq<Payload>)
      requires Valid() && payloads != null && at == |queue|
      modifies this`queue, this`currentPacketIndex, this`eof, parser.source
      ensures Valid() && at <= |queue|
      ensures var end := WalkF(old(Env()), old(WalkAt(at, target, objectNumber, errors, arrived)));
        (!more ==> end == WalkEnd(true, WalkAt(at, target, objectNumber, errors, arrived'))) &&
        (more ==> end == WalkF(Env(), WalkAt(at, target, objectNumber, errors, arrived')) &&
                  Budget(Env(), Cursor()) < old(Budget(Env(), Cursor())))
    {
      ghost var w := WalkAt(at, target, objectNumber, errors, arrived);
      ghost var q := queue;
      more := ReadMore();
      ReadMoreBudget(Env(), w.cursor);
      arrived' := arrived;
      if more {
        arrived' := arrived + queue[|q|..];
        assert queue == q + queue[|q|..];
      }
    }

    /** The take step of the loop of `Advance`: payload `at` joins the frame, which locks its stream and object. */
    method TakeStep(at: nat, target: int, objectNumber: int, count: int, ghost errors: seq<string>,
                    ghost arrived: seq<Payload>, ghost base: seq<string>)
      returns (ok: bool, target': int, objectNumber': int, ghost errors': seq<string>)
      requires Valid() && payloads != null && at < |queue| && count == |frame|
      requires Matches(queue[at], target) && (count > 0 ==> queue[at].mediaObjectNumber == objectNumber)
      requires parser.errors.messages == base + errors
      modifies this`queue, this`payloads, this`capacity, this`size, this`frame, payloads, parser.errors
      ensures Valid() && payloads != null && (payloads == old(payloads) || fresh(payloads))
      ensures parser.errors.messages == base + errors'
      ensures var end := WalkF(Env(), old(WalkAt(at, target, objectNumber, errors, arrived)));
        (!ok ==> end == WalkEnd(false, WalkAt(at, target', objectNumber', errors', arrived))) &&
        (ok ==> at <= |queue| && |queue| + 1 == old(|queue|) && count + 1 == |frame| &&
                end == WalkF(Env(), WalkAt(at, target', objectNumber', errors', arrived)))
    {
      ghost var w := WalkAt(at, target, objectNumber, errors, arrived);
      ghost var a := TakeAlloc(Env(), w);
      var p := queue[at];
      target' := if target == 0 then p.streamId else target;
      objectNumber' := p.mediaObjectNumber;
      ok := TakePayload(at, count);
      errors' := errors + a.errors;
      if ok {
        TakeUnfold(Env(), w);
        assert WalkAt(at, target', objectNumber', errors', arrived) == Taken(w, a.capacity).(errors := w.errors + a.errors);
      }
    }

    /**
     * The step of the loop of `Advance` that adds payload `at` of the queue
     * to the frame: with `payload_count` the frame's length after it, grow
     * the list to `payload_count + 3` slots when it is full, store
     * the payload after the frame's others and unlink it from the queue.
     */
    method TakePayload(at: int, count: int) returns (ok: bool)
      requires Valid() && payloads != null && 0 <= at < |queue| && count == |frame|
      modifies this`queue, this`payloads, this`capacity, this`size, this`frame, payloads, parser.errors
      ensures Valid() && payloads != null && (payloads == old(payloads) || fresh(payloads))
      ensures var a := TakeAlloc(old(Env()), old(WalkAt(at, 0, 0, [], [])));
        ok == a.ok && parser.errors.messages == old(parser.errors.messages) + a.errors &&
        size == old(size) + DataLength(old(queue)[at]) &&
        (ok ==> capacity == a.capacity && frame == old(frame) + [old(queue)[at]] &&
                queue == old(queue)[..at] + old(queue)[at + 1..]) &&
        (!ok ==> capacity == old(capacity) && frame == old(frame) && queue == old(queue))
    {
      var p := queue[at];
      size := size + DataLength(p);
      if count + 1 > capacity {
        var grown := ResizeList(count + 4);
        if !grown {
          return false;
        }
      }
      payloads[count] := Some(p);
      frame := frame + [p];
      Remove(at);
      return true;
    }

    /** `Write (dest)`: the bytes of the frame's payloads one after the other; nothing without a list. */
    method Write() returns (ok: bool, bytes: seq<bv8>)
      requires Valid()
      ensures ok == (payloads != null)
      ensures ok ==> bytes == Concat(frame)
    {
      if payloads == null {
        return false, [];
      }
      bytes := [];
      var i := 0;
      while payloads[i].Some?
        invariant 0 <= i <= |frame|
        invariant bytes == Concat(frame[..i])
        decreases |frame| - i
      {
        assert frame[..i + 1][..i] == frame[..i];
        bytes := bytes + payloads[i].value.data;
        i := i + 1;
      }
      assert frame[..i] == frame;
      return true, bytes;
    }

    /**
     * `ReadScriptCommand`: with a callback set, read the frame's bytes as
     * UTF-16 units and count the type up to and including the first NUL and
     * the text from there up to and including the second; with two NULs the
     * callback gets type, text and the frame's pts.
     */
    method ReadScriptCommand()
      requires Valid() && size == SumLengths(frame)
      modifies this`commands
      ensures commands ==
        if parser.scriptCallbackSet && CommandOf(frame).Some? then old(commands) + [CommandOf(frame).value]
        else old(commands)
    {
      if !parser.scriptCallbackSet {
        return;
      }
      var written, data := Write();
      if !written {
        return;
      }
      var pts := Pts();
      ConcatLength(frame);
      var command := ScanCommand(Units(data), size / 2, pts);
      if command.Some? {
        commands := commands + [command.value];
      }
    }

    /**
     * The scan of `ReadScriptCommand` over the first `count` units: count
     * units into the type until the first NUL and into the text until the
     * second, and stop there.
     */
    static method ScanCommand(units: seq<int>, count: int, pts: int) returns (r: Option<Command>)
      requires count == |units|
      ensures r == CommandIn(units, pts)
    {
      ghost var n1 := NextNul(units, 0);
      ghost var n2 := if n1 < |units| then NextNul(units, n1 + 1) else |units|;
      NextNulSkips(units, 0);
      if n1 < |units| {
        NextNulSkips(units, n1 + 1);
      }
      var typeLength, textLength, nullCount := 0, 0, 0;
      var inText := false;
      var i := 0;
      while i < count
        invariant 0 <= i <= |units|
        invariant !inText ==> nullCount == 0 && typeLength == i && textLength == 0 && i <= n1
        invariant inText ==> nullCount == 1 && n1 < i && typeLength == n1 + 1 && textLength == i - n1 - 1 && i <= n2
      {
        if !inText {
          typeLength := typeLength + 1;
        } else {
          textLength := textLength + 1;
        }
        if units[i] == 0 {
          nullCount := nullCount + 1;
          if !inText {
            inText := true;
          } else {
            break;
          }
        }
        i := i + 1;
      }
      if nullCount >= 2 {
        return Some(Command(units[..typeLength], units[typeLength..typeLength + textLength], pts));
      }
      return None;
    }

    /** `Remove (data)`: unlink one node of the queue, keeping the others in order. */
    method Remove(i: int)
      requires 0 <= i < |queue|
      modifies this`queue
      ensures |queue| == |old(queue)| - 1
      ensures forall j :: 0 <= j < i ==> queue[j] == old(queue)[j]
      ensures forall j :: i <= j < |queue| ==> queue[j] == old(queue)[j + 1]
    {
      queue := queue[..i] + queue[i + 1..];
    }

    /** `RemoveAll`: empty the queue. */
    method RemoveAll()
      modifies this`queue
      ensures queue == []
    {
      queue := [];
    }
  }
}

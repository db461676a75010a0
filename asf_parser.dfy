/**
 * `ASFParser`: reads the header of an ASF stream from an untrusted byte
 * source, keeps the header objects, the singleton objects and the stream
 * table, and reads data packets. Every allocation whose size comes from the
 * stream must be smaller than the declared header size.
 */
module AsfParser {
  import opened AsfCore
  import opened AsfSource
  import opened AsfHeader
  import opened AsfLayout
  import opened AsfPacket

  const OutOfMemory := "Out of memory."
  const HeaderCorruption := "Data corruption in header."
  const DataCorruption := "Data corruption in data."
  const ReadDataTwice := "ReadData has already been called.\n"

  /** What `ReadObject` logs for a GUID the registry does not know. */
  function UnrecognizedGuid(guid: string): string { "Unrecognized guid: " + guid + "." }

  /** What `ReadObject` logs when `Malloc` refuses an object's size. */
  function HeaderCorrupted(guid: string): string { "Header corrupted (id: " + guid + ")" }

  /** The header preamble's 64-bit object size (offset 16). */
  function HeaderSize(header: seq<bv8>): nat { Field(header, 16, 8) }

  /** The header preamble's 32-bit object count (offset 24). */
  function ObjectCount(header: seq<bv8>): nat { Field(header, 24, 4) }

  /**
   * `VerifyHeaderDataSize` followed by `g_try_malloc0`: a block is granted when
   * a header is loaded and the size is below its declared size; a block of 0
   * bytes is refused by the allocator, which reports "Out of memory.".
   */
  predicate MallocAccepts(header: Option<seq<bv8>>, size: int) {
    header.Some? && 0 < size < HeaderSize(header.value)
  }

  function MallocErrors(header: Option<seq<bv8>>, size: int): (e: seq<string>)
    ensures e != [] ==> e == [OutOfMemory] && size == 0
  {
    if header.Some? && size == 0 && 0 < HeaderSize(header.value) then [OutOfMemory] else []
  }

  /** The GUID and the declared size of an object envelope. */
  function EnvelopeId(envelope: seq<bv8>): seq<bv8>
    requires |envelope| == ObjectEnvelopeSize
  {
    envelope[..GuidSize]
  }

  function EnvelopeSize(envelope: seq<bv8>): nat
    requires |envelope| == ObjectEnvelopeSize
  {
    LittleEndian(envelope[GuidSize..])
  }

  /** Bytes of an object after its envelope, as the `uint32_t` count `ReadObject` passes to `Read`. */
  function BodyLength(size: nat): (n: nat)
    ensures n < TwoTo32
    ensures ObjectEnvelopeSize < size < ObjectEnvelopeSize + TwoTo32 ==> n == size - ObjectEnvelopeSize
  {
    if size > ObjectEnvelopeSize then UInt32(size - ObjectEnvelopeSize) else 0
  }

  /** The allocation `ReadHeader` makes for the object pointers: `(object_count + 1) * sizeof (pointer)`, as `uint32_t`. */
  function ObjectTableBytes(objectCount: nat): nat
  {
    UInt32(UInt32(objectCount + 1) * PointerSize)
  }

  /** The bytes the object loop of `ReadHeader` reads for these objects: each one's envelope and body. */
  function TotalBytes(objs: seq<HeaderObject>): nat {
    if objs == [] then 0 else TotalBytes(objs[..|objs| - 1]) + |objs[|objs| - 1].bytes|
  }

  lemma TotalBytesAppend(objs: seq<HeaderObject>, o: HeaderObject)
    ensures TotalBytes(objs + [o]) == TotalBytes(objs) + |o.bytes|
  {
    assert (objs + [o])[..|objs|] == objs;
  }

  /** What `ReadObject` gives: the object (NULL when it fails) and the messages it adds to the error chain. */
  datatype ObjectRead = ObjectRead(obj: Option<HeaderObject>, errors: seq<string>)

  /**
   * `ReadObject` on `envelope` with the source standing at `p`: an
   * unrecognised GUID and a size `Malloc` refuses fail with their messages;
   * otherwise the body must be in the data and pass validation.
   */
  function ReadObjectAt(hooks: Hooks, header: Option<seq<bv8>>, envelope: seq<bv8>, data: seq<bv8>, p: nat): ObjectRead
    requires |envelope| == ObjectEnvelopeSize
  {
    var id := EnvelopeId(envelope);
    var size := EnvelopeSize(envelope);
    if hooks.guidType(id) == Unrecognized then ObjectRead(None, [UnrecognizedGuid(hooks.guidText(id))])
    else if !MallocAccepts(header, UInt32(size)) then
      ObjectRead(None, MallocErrors(header, UInt32(size)) + [HeaderCorrupted(hooks.guidText(id))])
    else
      var n := BodyLength(size);
      if p + n > |data| then ObjectRead(None, [])
      else
        var bytes := envelope + data[p..p + n];
        var verdict := hooks.validateObject(bytes);
        if verdict.Invalid? then ObjectRead(None, verdict.messages)
        else ObjectRead(Some(HeaderObject(id, size, bytes)), [])
  }

  /** One round of the object loop at byte `at`: read the 24-byte envelope, then `ReadObject`. */
  function ObjectAt(hooks: Hooks, header: Option<seq<bv8>>, data: seq<bv8>, at: nat): ObjectRead
  {
    if at + ObjectEnvelopeSize > |data| then ObjectRead(None, [])
    else ReadObjectAt(hooks, header, data[at..at + ObjectEnvelopeSize], data, at + ObjectEnvelopeSize)
  }

  /** An object a round reads is the bytes of `data` from `at` on, envelope first, and adds no message. */
  lemma ObjectAtBytes(hooks: Hooks, header: Option<seq<bv8>>, data: seq<bv8>, at: nat)
    ensures var r := ObjectAt(hooks, header, data, at);
      r.obj.Some? ==>
        ObjectEnvelopeSize <= |r.obj.value.bytes| && at + |r.obj.value.bytes| <= |data| &&
        r.obj.value.bytes == data[at..at + |r.obj.value.bytes|] && r.errors == []
  {
  }

  /** The rounds of the object loop over `data`: `ObjectAt` at each byte. */
  function Reader(hooks: Hooks, header: Option<seq<bv8>>, data: seq<bv8>): nat -> ObjectRead {
    (at: nat) => ObjectAt(hooks, header, data, at)
  }

  /** The objects the object loop of `ReadHeader` keeps and the messages it adds. */
  datatype ObjectsRead = ObjectsRead(objects: seq<HeaderObject>, errors: seq<string>)

  /**
   * The object loop of `ReadHeader` at byte `pos`, with `objs` read so far
   * and `read` giving the round at each byte: read objects until `count`
   * are read or one fails, keeping the object that repeats a singleton and
   * stopping there with its message.
   */
  function ObjectLoop(read: nat -> ObjectRead, kindOf: seq<bv8> -> Kind, pos: nat, count: nat,
                      objs: seq<HeaderObject>): ObjectsRead
    decreases count - |objs|
  {
    if |objs| >= count then ObjectsRead(objs, [])
    else
      var r := read(pos);
      if r.obj.None? then ObjectsRead(objs, r.errors)
      else
        var k := kindOf(r.obj.value.id);
        if Repeats(Kinds(objs, kindOf), k) then ObjectsRead(objs + [r.obj.value], [DuplicateMessage(k)])
        else ObjectLoop(read, kindOf, pos + |r.obj.value.bytes|, count, objs + [r.obj.value])
  }

  /**
   * Each of `objs` is the object the loop reads at its offset: the one after
   * `objs[..k]` is read at `pos + TotalBytes(objs[..k])`.
   */
  predicate ReadInOrder(read: nat -> ObjectRead, pos: nat, objs: seq<HeaderObject>)
  {
    objs == [] ||
    var prev := objs[..|objs| - 1];
    ReadInOrder(read, pos, prev) && read(pos + TotalBytes(prev)).obj == Some(objs[|objs| - 1])
  }

  lemma ReadInOrderAppend(read: nat -> ObjectRead, pos: nat, objs: seq<HeaderObject>, o: HeaderObject)
    ensures ReadInOrder(read, pos, objs + [o]) <==>
      ReadInOrder(read, pos, objs) && read(pos + TotalBytes(objs)).obj == Some(o)
  {
    assert (objs + [o])[..|objs|] == objs;
  }

  /** The last of objects read in order was read where the others end. */
  lemma ReadInOrderLast(read: nat -> ObjectRead, pos: nat, objs: seq<HeaderObject>)
    requires ReadInOrder(read, pos, objs) && objs != []
    ensures ReadInOrder(read, pos, objs[..|objs| - 1])
    ensures read(pos + TotalBytes(objs[..|objs| - 1])).obj == Some(objs[|objs| - 1])
  {
  }

  /** A round of `ObjectLoop` that reads an object repeating no singleton goes on after it, at `next`. */
  lemma ObjectLoopGoesOn(read: nat -> ObjectRead, kindOf: seq<bv8> -> Kind, pos: nat, next: nat, count: nat,
                         objs: seq<HeaderObject>, o: HeaderObject)
    requires |objs| < count && read(pos).obj == Some(o) && !Repeats(Kinds(objs, kindOf), kindOf(o.id))
    requires next == pos + |o.bytes|
    ensures ObjectLoop(read, kindOf, pos, count, objs) == ObjectLoop(read, kindOf, next, count, objs + [o])
  {
  }

  /** A round of `ObjectLoop` that reads an object repeating a singleton ends the loop with it. */
  lemma ObjectLoopRepeats(read: nat -> ObjectRead, kindOf: seq<bv8> -> Kind, pos: nat, count: nat,
                          objs: seq<HeaderObject>, o: HeaderObject)
    requires |objs| < count && read(pos).obj == Some(o) && Repeats(Kinds(objs, kindOf), kindOf(o.id))
    ensures ObjectLoop(read, kindOf, pos, count, objs) == ObjectsRead(objs + [o], [DuplicateMessage(kindOf(o.id))])
  {
  }

  /**
   * Objects read in order without a repeated singleton are rounds of
   * `ObjectLoop` that go on: the loop from `pos` is the loop from `at`, where
   * they end, with them read.
   */
  lemma {:induction false} ObjectLoopSkips(read: nat -> ObjectRead, kindOf: seq<bv8> -> Kind, pos: nat, at: nat, count: nat,
                                           objs: seq<HeaderObject>)
    requires ReadInOrder(read, pos, objs) && |objs| <= count && at == pos + TotalBytes(objs)
    requires FirstDuplicate(Kinds(objs, kindOf)) == Accepted
    ensures ObjectLoop(read, kindOf, pos, count, []) == ObjectLoop(read, kindOf, at, count, objs)
    decreases |objs|
  {
    if objs != [] {
      var prev, o := objs[..|objs| - 1], objs[|objs| - 1];
      ReadInOrderLast(read, pos, objs);
      AcceptedPrefix(objs, kindOf);
      var mid := pos + TotalBytes(prev);
      assert at == mid + |o.bytes|;
      ObjectLoopSkips(read, kindOf, pos, mid, count, prev);
      ObjectLoopGoesOn(read, kindOf, mid, at, count, prev, o);
      LastSplit(objs);
    }
  }

  /** A non-empty list is its prefix followed by its last object. */
  lemma LastSplit(objs: seq<HeaderObject>)
    requires objs != []
    ensures objs[..|objs| - 1] + [objs[|objs| - 1]] == objs
  {
  }

  /** The object loop from `pos` that reads all `count` objects, in order up to `at` and none repeated, keeps them and adds no message. */
  lemma ObjectLoopCompletes(read: nat -> ObjectRead, kindOf: seq<bv8> -> Kind, pos: nat, at: nat, count: nat,
                            objs: seq<HeaderObject>)
    requires ReadInOrder(read, pos, objs) && |objs| == count && at == pos + TotalBytes(objs)
    requires FirstDuplicate(Kinds(objs, kindOf)) == Accepted
    ensures ObjectLoop(read, kindOf, pos, count, []) == ObjectsRead(objs, [])
  {
    ObjectLoopSkips(read, kindOf, pos, at, count, objs);
  }

  /** The same loop with fewer than `count` objects read, when the round at `at` fails: it ends there with that round's messages. */
  lemma ObjectLoopFails(read: nat -> ObjectRead, kindOf: seq<bv8> -> Kind, pos: nat, at: nat, count: nat,
                        objs: seq<HeaderObject>)
    requires ReadInOrder(read, pos, objs) && |objs| < count && at == pos + TotalBytes(objs)
    requires FirstDuplicate(Kinds(objs, kindOf)) == Accepted && read(at).obj.None?
    ensures ObjectLoop(read, kindOf, pos, count, []) == ObjectsRead(objs, read(at).errors)
  {
    ObjectLoopSkips(read, kindOf, pos, at, count, objs);
  }

  /** Objects read in order whose last one, and only it, repeats a singleton: the loop keeps them and adds that message. */
  lemma ObjectLoopRejects(read: nat -> ObjectRead, kindOf: seq<bv8> -> Kind, pos: nat, count: nat, objs: seq<HeaderObject>)
    requires ReadInOrder(read, pos, objs) && 0 < |objs| <= count
    requires FirstDuplicate(Kinds(objs[..|objs| - 1], kindOf)) == Accepted && FirstDuplicate(Kinds(objs, kindOf)).Rejected?
    ensures ObjectLoop(read, kindOf, pos, count, []) == ObjectsRead(objs, [FirstDuplicate(Kinds(objs, kindOf)).message])
  {
    var prev, o := objs[..|objs| - 1], objs[|objs| - 1];
    var kinds, k := Kinds(prev, kindOf), kindOf(o.id);
    var mid := pos + TotalBytes(prev);
    ReadInOrderLast(read, pos, objs);
    RejectedLast(objs, kindOf);
    assert |prev| < count && read(mid).obj == Some(o) && Repeats(kinds, k);
    ObjectLoopSkips(read, kindOf, pos, mid, count, prev);
    ObjectLoopRepeats(read, kindOf, mid, count, prev, o);
    LastSplit(objs);
  }

  /**
   * `r`, kept short of `count` objects without a repeated singleton, is a
   * failed round: the one at `base` plus the bytes of its objects, with that
   * round's messages.
   */
  predicate StoppedOnRound(read: nat -> ObjectRead, kindOf: seq<bv8> -> Kind, base: nat, count: nat, r: ObjectsRead)
  {
    |r.objects| < count && FirstDuplicate(Kinds(r.objects, kindOf)) == Accepted ==>
      read(base + TotalBytes(r.objects)).obj.None? && r.errors == read(base + TotalBytes(r.objects)).errors
  }

  /** A loop that ends short of `count` without a repeated singleton ended on a failed round where its objects end. */
  lemma {:induction false} ObjectLoopStopped(read: nat -> ObjectRead, kindOf: seq<bv8> -> Kind, base: nat, pos: nat, count: nat,
                                             objs: seq<HeaderObject>)
    requires pos == base + TotalBytes(objs) && FirstDuplicate(Kinds(objs, kindOf)) == Accepted
    ensures StoppedOnRound(read, kindOf, base, count, ObjectLoop(read, kindOf, pos, count, objs))
    decreases count - |objs|
  {
    if |objs| < count && read(pos).obj.Some? {
      var o := read(pos).obj.value;
      var k := kindOf(o.id);
      AppendObject(objs, o, kindOf, k);
      FirstDuplicateAppend(Kinds(objs, kindOf), k);
      if Repeats(Kinds(objs, kindOf), k) {
        ObjectLoopRepeats(read, kindOf, pos, count, objs, o);
      } else {
        var next := pos + |o.bytes|;
        TotalBytesAppend(objs, o);
        ObjectLoopGoesOn(read, kindOf, pos, next, count, objs, o);
        ObjectLoopStopped(read, kindOf, base, next, count, objs + [o]);
      }
    }
  }

  class Parser {
    const source: ByteSource
    const errors: ErrorChain
    const hooks: Hooks
    /** `header`: NULL, or the 30 bytes of the header preamble. */
    var header: Option<seq<bv8>>
    /** `header_objects`: NULL, or the objects read so far (the remaining slots are NULL). */
    var headerObjects: Option<seq<HeaderObject>>
    var fileProperties: Option<HeaderObject>
    var headerExtension: Option<HeaderObject>
    var marker: Option<HeaderObject>
    var scriptCommand: Option<HeaderObject>
    /** `stream_properties`: slot `i - 1` holds stream number `i`. */
    const streamProperties: array<Option<HeaderObject>>
    /** `data`: NULL, or the 50 bytes of the data object. */
    var data: Option<seq<bv8>>
    var dataOffset: int
    var packetOffset: int
    var packetOffsetEnd: int
    /** The position the data object was sought from: the source's position when `ReadData` was reached. */
    ghost var dataFrom: int
    /** Whether the embedder set `embedded_script_command`. */
    var scriptCallbackSet: bool

    ghost predicate Valid()
      reads this`header, this`headerObjects, source
    {
      streamProperties.Length == StreamSlots && source.Valid() &&
      (headerObjects.Some? ==> header.Some? && |headerObjects.value| <= ObjectCount(header.value))
    }

    /** The state `Initialize` leaves. */
    predicate Initial()
      reads this
    {
      header.None? && headerObjects.None? && fileProperties.None? && headerExtension.None? &&
      marker.None? && scriptCommand.None? && data.None? &&
      dataOffset == 0 && packetOffset == 0 && packetOffsetEnd == 0
    }

    constructor (src: ByteSource, hooks: Hooks)
      requires src.Valid()
      ensures Valid() && Initial()
      ensures source == src && this.hooks == hooks && !scriptCallbackSet
      ensures fresh(errors) && errors.messages == []
      ensures fresh(streamProperties) && forall i :: 0 <= i < StreamSlots ==> streamProperties[i].None?
    {
      source := src;
      this.hooks := hooks;
      errors := new ErrorChain();
      streamProperties := new Option<HeaderObject>[StreamSlots](_ => None);
      header := None;
      headerObjects := None;
      fileProperties := None;
      headerExtension := None;
      marker := None;
      scriptCommand := None;
      data := None;
      dataOffset := 0;
      packetOffset := 0;
      packetOffsetEnd := 0;
      scriptCallbackSet := false;
    }

    /** `VerifyHeaderDataSize`: a header is loaded and `size` is below its declared size. */
    predicate VerifyHeaderDataSize(size: int)
      reads this
    {
      header.Some? && 0 <= size < HeaderSize(header.value)
    }

    /** `Malloc`: NULL unless a header is loaded and `size < header->size`; 0 bytes is refused by the allocator. */
    method Malloc(size: int) returns (ok: bool)
      requires 0 <= size < TwoTo32
      modifies errors
      ensures ok == MallocAccepts(header, size)
      ensures ok ==> VerifyHeaderDataSize(size)
      ensures errors.messages == old(errors.messages) + MallocErrors(header, size)
    {
      if !VerifyHeaderDataSize(size) {
        return false;
      }
      ok := size > 0;
      if !ok {
        errors.AddError(OutOfMemory);
      }
    }

    /** `AddError`, forwarded to the error chain. */
    method AddError(msg: string)
      modifies errors
      ensures errors.messages == old(errors.messages) + [msg]
    {
      errors.AddError(msg);
    }

    /**
     * `ReadObject`: turn an envelope into a whole object. An unrecognised GUID
     * and a size `Malloc` refuses fail with an error before anything more is
     * read; otherwise the body is read and the object must pass validation.
     */
    method ReadObject(envelope: seq<bv8>) returns (obj: Option<HeaderObject>)
      requires Valid() && |envelope| == ObjectEnvelopeSize
      modifies source, errors
      ensures Valid()
      ensures hooks.guidType(EnvelopeId(envelope)) == Unrecognized ==>
        obj.None? && source.pos == old(source.pos) &&
        errors.messages == old(errors.messages) + [UnrecognizedGuid(hooks.guidText(EnvelopeId(envelope)))]
      ensures hooks.guidType(EnvelopeId(envelope)) != Unrecognized && !MallocAccepts(header, UInt32(EnvelopeSize(envelope))) ==>
        obj.None? && source.pos == old(source.pos) &&
        errors.messages == old(errors.messages) + MallocErrors(header, UInt32(EnvelopeSize(envelope))) +
          [HeaderCorrupted(hooks.guidText(EnvelopeId(envelope)))]
      ensures hooks.guidType(EnvelopeId(envelope)) != Unrecognized && MallocAccepts(header, UInt32(EnvelopeSize(envelope))) ==>
        var n := BodyLength(EnvelopeSize(envelope));
        var p := old(source.pos);
        source.pos == (if p + n <= |source.data| then p + n else p) &&
        errors.messages == old(errors.messages) +
          (if p + n <= |source.data| then Complaints(hooks.validateObject(envelope + source.data[p..p + n])) else []) &&
        (obj.Some? <==> p + n <= |source.data| && hooks.validateObject(envelope + source.data[p..p + n]).Validated?) &&
        (obj.Some? ==> obj.value == HeaderObject(EnvelopeId(envelope), EnvelopeSize(envelope), envelope + source.data[p..p + n]))
      ensures obj.Some? ==> hooks.guidType(obj.value.id) != Unrecognized && hooks.validateObject(obj.value.bytes).Validated?
      ensures obj.Some? ==> errors.messages == old(errors.messages)
      ensures obj.Some? ==> source.pos == old(source.pos) + |obj.value.bytes| - ObjectEnvelopeSize
      ensures obj == ReadObjectAt(hooks, header, envelope, source.data, old(source.pos)).obj
      ensures errors.messages == old(errors.messages) + ReadObjectAt(hooks, header, envelope, source.data, old(source.pos)).errors
    {
      var id := EnvelopeId(envelope);
      var size := EnvelopeSize(envelope);
      if hooks.guidType(id) == Unrecognized {
        errors.AddError(UnrecognizedGuid(hooks.guidText(id)));
        return None;
      }
      var granted := Malloc(UInt32(size));
      if !granted {
        errors.AddError(HeaderCorrupted(hooks.guidText(id)));
        return None;
      }
      var bytes := envelope;
      if size > ObjectEnvelopeSize {
        var ok, body := source.Read(BodyLength(size));
        if !ok {
          return None;
        }
        bytes := bytes + body;
      } else {
        assert source.data[old(source.pos)..old(source.pos)] == [];
        assert bytes == envelope + source.data[old(source.pos)..old(source.pos)];
      }
      var verdict := hooks.validateObject(bytes);
      if verdict.Invalid? {
        errors.messages := errors.messages + verdict.messages;
        return None;
      }
      return Some(HeaderObject(id, size, bytes));
    }

    /** `GetStream`: the slot of a stream number in 1..127, NULL for any other number. */
    function GetStream(number: int): (r: Option<HeaderObject>)
      requires Valid()
      reads this, source, streamProperties
      ensures !(1 <= number <= 127) ==> r.None?
      ensures 1 <= number <= 127 ==> r == streamProperties[number - 1]
    {
      if number < 1 || number > 127 then None else streamProperties[number - 1]
    }

    /** `SetStream`: store into the slot of a stream number in 1..127; any other number changes nothing. */
    method SetStream(number: int, stream: HeaderObject)
      requires Valid()
      modifies streamProperties
      ensures streamProperties[..] == SetSlot(old(streamProperties[..]), number, stream)
    {
      if number < 1 || number > 127 {
        return;
      }
      streamProperties[number - 1] := Some(stream);
    }

    /** Kind of every object the header has so far. */
    function ObjectKinds(): seq<Kind>
      reads this`headerObjects
      requires headerObjects.Some?
    {
      Kinds(headerObjects.value, hooks.guidType)
    }

    /** The singleton slots and the stream table hold what the objects read so far put there. */
    ghost predicate SlotsMatch(objs: seq<HeaderObject>, table0: seq<Option<HeaderObject>>)
      requires |table0| == StreamSlots
      reads this`fileProperties, this`headerExtension, this`marker, this`scriptCommand, streamProperties
    {
      SlotValues(objs, hooks.guidType, table0, streamProperties[..], fileProperties, headerExtension, marker, scriptCommand)
    }


    /**
     * The singleton cases of the object loop's switch: fill the slot of the
     * object's kind, failing with an error when it is already full.
     */
    method FillSlot(o: HeaderObject) returns (ok: bool)
      modifies this`fileProperties, this`headerExtension, this`marker, this`scriptCommand, errors
      ensures ok == !Full(hooks.guidType(o.id), old(fileProperties), old(headerExtension), old(marker), old(scriptCommand))
      ensures errors.messages == old(errors.messages) + (if ok then [] else [DuplicateMessage(hooks.guidType(o.id))])
      ensures fileProperties == Fill(old(fileProperties), FilePropertiesKind, o, hooks.guidType)
      ensures headerExtension == Fill(old(headerExtension), HeaderExtensionKind, o, hooks.guidType)
      ensures marker == Fill(old(marker), MarkerKind, o, hooks.guidType)
      ensures scriptCommand == Fill(old(scriptCommand), ScriptCommandKind, o, hooks.guidType)
    {
      var k := hooks.guidType(o.id);
      ok := true;
      if k == FilePropertiesKind {
        if fileProperties.Some? {
          ok := false;
        } else {
          fileProperties := Some(o);
        }
      } else if k == HeaderExtensionKind {
        if headerExtension.Some? {
          ok := false;
        } else {
          headerExtension := Some(o);
        }
      } else if k == MarkerKind {
        if marker.Some? {
          ok := false;
        } else {
          marker := Some(o);
        }
      } else if k == ScriptCommandKind {
        if scriptCommand.Some? {
          ok := false;
        } else {
          scriptCommand := Some(o);
        }
      }
      if !ok {
        AddError(DuplicateMessage(k));
      }
    }

    /**
     * Append a freshly read object to the header's object list and register
     * it. Fails, after storing it, when a singleton repeats.
     */
    method StoreObject(o: HeaderObject, ghost table0: seq<Option<HeaderObject>>) returns (ok: bool, isStream: bool)
      requires Valid() && header.Some? && headerObjects.Some? && |headerObjects.value| < ObjectCount(header.value)
      requires |table0| == StreamSlots && SlotsMatch(headerObjects.value, table0)
      requires FirstDuplicate(ObjectKinds()) == Accepted
      modifies this`headerObjects, this`fileProperties, this`headerExtension, this`marker, this`scriptCommand, errors, streamProperties
      ensures Valid() && headerObjects == Some(old(headerObjects.value) + [o])
      ensures SlotsMatch(headerObjects.value, table0)
      ensures isStream == (hooks.guidType(o.id) == StreamPropertiesKind)
      ensures CountKind(ObjectKinds(), StreamPropertiesKind) > 0 <==>
        CountKind(old(ObjectKinds()), StreamPropertiesKind) > 0 || isStream
      ensures ok == (FirstDuplicate(ObjectKinds()) == Accepted)
      ensures errors.messages == old(errors.messages) + (if ok then [] else [FirstDuplicate(ObjectKinds()).message])
    {
      var prev := headerObjects.value;
      ghost var table, fp, he, mk, sc := streamProperties[..], fileProperties, headerExtension, marker, scriptCommand;
      isStream := AppendObject(o);
      ok := FillSlot(o);
      assert SlotsMatch(headerObjects.value, table0) by {
        SlotsStep(prev, o, hooks.guidType, table0, table, fp, he, mk, sc);
      }
      assert ok == (FirstDuplicate(ObjectKinds()) == Accepted) by {
        DuplicateStep(prev, o, hooks.guidType, fp, he, mk, sc);
      }
      StreamCountStep(prev, o, hooks.guidType);
    }

    /** Append `o` to the object list and, when it is a stream's properties, put it in that stream's slot. */
    method AppendObject(o: HeaderObject) returns (isStream: bool)
      requires Valid() && headerObjects.Some? && |headerObjects.value| < ObjectCount(header.value)
      modifies this`headerObjects, streamProperties
      ensures Valid() && headerObjects == Some(old(headerObjects.value) + [o])
      ensures isStream == (hooks.guidType(o.id) == StreamPropertiesKind)
      ensures streamProperties[..] == Register(old(streamProperties[..]), o, hooks.guidType)
    {
      headerObjects := Some(headerObjects.value + [o]);
      isStream := hooks.guidType(o.id) == StreamPropertiesKind;
      if isStream {
        SetStream(StreamNumber(o), o);
      }
    }

    /**
     * The object loop of `ReadHeader`: read `object_count` envelopes and
     * objects, register streams, and fail on the first repeated singleton.
     * Also yields `any_streams`. The objects and messages are those of
     * `ObjectLoop` over the source from where it stood.
     */
    method ReadHeaderObjects() returns (ok: bool, anyStreams: bool)
      requires Valid() && header.Some? && headerObjects == Some([])
      requires fileProperties.None? && headerExtension.None? && marker.None? && scriptCommand.None?
      modifies this`headerObjects, this`fileProperties, this`headerExtension, this`marker, this`scriptCommand, source, errors, streamProperties
      ensures Valid() && headerObjects.Some?
      ensures SlotsMatch(headerObjects.value, old(streamProperties[..]))
      ensures anyStreams == (CountKind(ObjectKinds(), StreamPropertiesKind) > 0)
      ensures ok ==>
        |headerObjects.value| == ObjectCount(header.value) && FirstDuplicate(ObjectKinds()) == Accepted &&
        errors.messages == old(errors.messages)
      ensures FirstDuplicate(ObjectKinds()).Rejected? ==>
        !ok && errors.messages == old(errors.messages) + [FirstDuplicate(ObjectKinds()).message]
      ensures !ok && FirstDuplicate(ObjectKinds()) == Accepted ==>
        |headerObjects.value| < ObjectCount(header.value) &&
        RoundFails(old(source.pos) + TotalBytes(headerObjects.value), old(errors.messages))
      ensures |headerObjects.value| == ObjectCount(header.value) ==> source.pos == old(source.pos) + TotalBytes(headerObjects.value)
      ensures ObjectsLoaded(Reader(hooks, header, source.data), old(source.pos)) && LoopReported(Reader(hooks, header, source.data), old(source.pos), old(errors.messages))
    {
      ghost var pos0, errors0 := source.pos, errors.messages;
      assert pos0 == old(source.pos) && errors0 == old(errors.messages);
      ghost var read := Reader(hooks, header, source.data);
      ok, anyStreams := ObjectRounds(streamProperties[..], pos0, errors0, read);
      LoopOutcome(ok, read, pos0, errors0);
    }

    /**
     * The rounds of the object loop, each reading the next object at its
     * offset, until `object_count` are read or a round fails.
     */
    method ObjectRounds(ghost table0: seq<Option<HeaderObject>>, ghost pos0: nat, ghost errors0: seq<string>, ghost read: nat -> ObjectRead)
      returns (ok: bool, anyStreams: bool)
      requires Valid() && header.Some? && headerObjects == Some([])
      requires fileProperties.None? && headerExtension.None? && marker.None? && scriptCommand.None?
      requires table0 == streamProperties[..] && pos0 == source.pos && errors0 == errors.messages
      requires read == Reader(hooks, header, source.data)
      modifies this`headerObjects, this`fileProperties, this`headerExtension, this`marker, this`scriptCommand, source, errors, streamProperties
      ensures Valid() && headerObjects.Some?
      ensures SlotsMatch(headerObjects.value, table0)
      ensures anyStreams == (CountKind(ObjectKinds(), StreamPropertiesKind) > 0)
      ensures |headerObjects.value| == ObjectCount(header.value) ==> source.pos == pos0 + TotalBytes(headerObjects.value)
      ensures RoundsStopped(ok, read, pos0, errors0)
    {
      var count := ObjectCount(header.value);
      anyStreams := false;
      var i := 0;
      while i < count
        invariant Valid() && 0 <= i <= count
        invariant headerObjects.Some? && |headerObjects.value| == i
        invariant SlotsMatch(headerObjects.value, table0)
        invariant FirstDuplicate(ObjectKinds()) == Accepted
        invariant anyStreams == (CountKind(ObjectKinds(), StreamPropertiesKind) > 0)
        invariant errors.messages == errors0
        invariant source.pos == pos0 + TotalBytes(headerObjects.value)
        invariant ReadInOrder(read, pos0, headerObjects.value)
      {
        var isStream;
        ok, isStream := ReadRound(table0, pos0, errors0, read);
        anyStreams := anyStreams || isStream;
        if !ok {
          return false, anyStreams;
        }
        i := i + 1;
      }
      return true, anyStreams;
    }

    /**
     * How the rounds of the object loop begun at byte `from`, with error
     * chain `prior`, stop: with at most the declared objects, read in order by `read`; with
     * success only when every declared object was read and no message added;
     * with a duplicate only on a failure, on the last object read, and with
     * its message; and with a failure without one short of the declared
     * count, on a failed round where the objects end.
     */
    ghost predicate RoundsStopped(ok: bool, read: nat -> ObjectRead, from: nat, prior: seq<string>)
      reads this`header, this`headerObjects, errors
      requires header.Some? && headerObjects.Some?
    {
      ReadInOrder(read, from, headerObjects.value) && |headerObjects.value| <= ObjectCount(header.value) &&
      (ok ==>
         |headerObjects.value| == ObjectCount(header.value) && FirstDuplicate(ObjectKinds()) == Accepted &&
         errors.messages == prior) &&
      (FirstDuplicate(ObjectKinds()).Rejected? ==>
         !ok && 0 < |headerObjects.value| &&
         FirstDuplicate(Kinds(headerObjects.value[..|headerObjects.value| - 1], hooks.guidType)) == Accepted &&
         errors.messages == prior + [FirstDuplicate(ObjectKinds()).message]) &&
      (!ok && FirstDuplicate(ObjectKinds()) == Accepted ==>
         |headerObjects.value| < ObjectCount(header.value) && RoundFails(from + TotalBytes(headerObjects.value), prior))
    }

    /** The object list is the one the object loop over the rounds `read` keeps when it starts at byte `from`. */
    ghost predicate ObjectsLoaded(read: nat -> ObjectRead, from: nat)
      reads this`header, this`headerObjects
      requires header.Some? && headerObjects.Some?
    {
      headerObjects.value == ObjectLoop(read, hooks.guidType, from, ObjectCount(header.value), []).objects
    }

    /** The error chain is `prior` followed by the messages of that object loop. */
    ghost predicate LoopReported(read: nat -> ObjectRead, from: nat, prior: seq<string>)
      reads this`header, errors
      requires header.Some?
    {
      errors.messages == prior + ObjectLoop(read, hooks.guidType, from, ObjectCount(header.value), []).errors
    }

    /** The round of the object loop at byte `at` reads no object, and the error chain is `prior` and its messages. */
    ghost predicate RoundFails(at: nat, prior: seq<string>)
      reads this`header, errors
    {
      ObjectAt(hooks, header, source.data, at).obj.None? && errors.messages == prior + ObjectAt(hooks, header, source.data, at).errors
    }

    /** However the rounds over the parser's source stopped, the objects and messages are `ObjectLoop`'s. */
    lemma LoopOutcome(ok: bool, read: nat -> ObjectRead, from: nat, prior: seq<string>)
      requires header.Some? && headerObjects.Some?
      requires read == Reader(hooks, header, source.data) && RoundsStopped(ok, read, from, prior)
      ensures ObjectsLoaded(read, from) && LoopReported(read, from, prior)
    {
      if ok {
        LoopCompleted(read, from, prior);
      } else if FirstDuplicate(ObjectKinds()) == Accepted {
        LoopStopped(read, from, from + TotalBytes(headerObjects.value), prior);
      } else {
        LoopRepeated(read, from, prior);
      }
    }

    /** The object loop over `read` from byte `from` when every declared object was read: the objects and messages are `ObjectLoop`'s. */
    lemma LoopCompleted(read: nat -> ObjectRead, from: nat, prior: seq<string>)
      requires header.Some? && headerObjects.Some? && |headerObjects.value| == ObjectCount(header.value)
      requires ReadInOrder(read, from, headerObjects.value)
      requires FirstDuplicate(ObjectKinds()) == Accepted && errors.messages == prior
      ensures ObjectsLoaded(read, from) && LoopReported(read, from, prior)
    {
      ObjectLoopCompletes(read, hooks.guidType, from, from + TotalBytes(headerObjects.value), ObjectCount(header.value), headerObjects.value);
    }

    /** The same over the parser's rounds when the round at `at`, where the objects end, failed. */
    lemma LoopStopped(read: nat -> ObjectRead, from: nat, at: nat, prior: seq<string>)
      requires header.Some? && headerObjects.Some? && |headerObjects.value| < ObjectCount(header.value)
      requires read == Reader(hooks, header, source.data) && ReadInOrder(read, from, headerObjects.value)
      requires at == from + TotalBytes(headerObjects.value)
      requires FirstDuplicate(ObjectKinds()) == Accepted && RoundFails(at, prior)
      ensures ObjectsLoaded(read, from) && LoopReported(read, from, prior)
    {
      assert read(at) == ObjectAt(hooks, header, source.data, at);
      ObjectLoopFails(read, hooks.guidType, from, at, ObjectCount(header.value), headerObjects.value);
    }

    /** The same when the last object read repeats a singleton. */
    lemma LoopRepeated(read: nat -> ObjectRead, from: nat, prior: seq<string>)
      requires header.Some? && headerObjects.Some? && 0 < |headerObjects.value| <= ObjectCount(header.value)
      requires ReadInOrder(read, from, headerObjects.value)
      requires FirstDuplicate(Kinds(headerObjects.value[..|headerObjects.value| - 1], hooks.guidType)) == Accepted
      requires FirstDuplicate(ObjectKinds()).Rejected?
      requires errors.messages == prior + [FirstDuplicate(ObjectKinds()).message]
      ensures ObjectsLoaded(read, from) && LoopReported(read, from, prior)
    {
      ObjectLoopRejects(read, hooks.guidType, from, ObjectCount(header.value), headerObjects.value);
    }

    /**
     * One round of the object loop: read the next object at its offset and
     * store it.
     */
    method ReadRound(ghost table0: seq<Option<HeaderObject>>, ghost pos0: nat, ghost errors0: seq<string>, ghost read: nat -> ObjectRead)
      returns (ok: bool, isStream: bool)
      requires Valid() && header.Some? && headerObjects.Some?
      requires |headerObjects.value| < ObjectCount(header.value)
      requires |table0| == StreamSlots && SlotsMatch(headerObjects.value, table0)
      requires FirstDuplicate(ObjectKinds()) == Accepted
      requires source.pos == pos0 + TotalBytes(headerObjects.value)
      requires read == Reader(hooks, header, source.data) && ReadInOrder(read, pos0, headerObjects.value)
      requires errors.messages == errors0
      modifies this`headerObjects, this`fileProperties, this`headerExtension, this`marker, this`scriptCommand, source, errors, streamProperties
      ensures Valid() && headerObjects.Some? && SlotsMatch(headerObjects.value, table0)
      ensures CountKind(ObjectKinds(), StreamPropertiesKind) > 0 <==>
        CountKind(old(ObjectKinds()), StreamPropertiesKind) > 0 || isStream
      ensures ReadInOrder(read, pos0, headerObjects.value)
      ensures ok ==>
        |headerObjects.value| == |old(headerObjects.value)| + 1 && FirstDuplicate(ObjectKinds()) == Accepted &&
        errors.messages == errors0
      ensures |headerObjects.value| > |old(headerObjects.value)| ==> source.pos == pos0 + TotalBytes(headerObjects.value)
      ensures |headerObjects.value| == ObjectCount(header.value) ==> source.pos == pos0 + TotalBytes(headerObjects.value)
      ensures !ok ==> RoundsStopped(false, read, pos0, errors0)
    {
      ghost var prev := headerObjects.value;
      var obj := ReadNextObject();
      if obj.None? {
        return false, false;
      }
      ReadInOrderAppend(read, pos0, prev, obj.value);
      TotalBytesAppend(prev, obj.value);
      assert (prev + [obj.value])[..|prev|] == prev;
      ok, isStream := StoreObject(obj.value, table0);
    }

    /** One round of the object loop: read an envelope and turn it into an object. */
    method ReadNextObject() returns (obj: Option<HeaderObject>)
      requires Valid()
      modifies source, errors
      ensures Valid()
      ensures obj == ObjectAt(hooks, header, source.data, old(source.pos)).obj
      ensures errors.messages == old(errors.messages) + ObjectAt(hooks, header, source.data, old(source.pos)).errors
      ensures obj.Some? ==> source.pos == old(source.pos) + |obj.value.bytes| && errors.messages == old(errors.messages)
      ensures obj.None? ==> RoundFails(old(source.pos), old(errors.messages))
    {
      var got, envelope := source.Read(ObjectEnvelopeSize);
      if !got {
        return None;
      }
      obj := ReadObject(envelope);
    }

    /**
     * The start of `ReadHeader`: read the preamble into a zeroed block,
     * validate it, and allocate the object table.
     */
    method OpenHeader() returns (ok: bool)
      requires Valid() && Initial()
      modifies this`header, this`headerObjects, source, errors
      ensures Valid() && header.Some?
      ensures headerObjects == (if ok then Some([]) else None)
      ensures old(source.pos) + HeaderPreambleSize > |source.data| ==>
        !ok && header == Some(seq(HeaderPreambleSize, _ => 0 as bv8)) && errors.messages == old(errors.messages)
      ensures old(source.pos) + HeaderPreambleSize <= |source.data| ==>
        header == Some(source.data[old(source.pos)..old(source.pos) + HeaderPreambleSize]) &&
        source.pos == old(source.pos) + HeaderPreambleSize &&
        (ok <==> hooks.validateHeader(header.value).Validated? && MallocAccepts(header, ObjectTableBytes(ObjectCount(header.value)))) &&
        errors.messages == old(errors.messages) + Complaints(hooks.validateHeader(header.value)) +
          (if hooks.validateHeader(header.value).Validated? && !MallocAccepts(header, ObjectTableBytes(ObjectCount(header.value)))
           then MallocErrors(header, ObjectTableBytes(ObjectCount(header.value))) + [HeaderCorruption] else [])
    {
      // MallocVerified (sizeof (asf_header)) always succeeds: the block starts zeroed.
      header := Some(seq(HeaderPreambleSize, _ => 0 as bv8));
      var read, preamble := source.Read(HeaderPreambleSize);
      if !read {
        return false;
      }
      header := Some(preamble);
      var verdict := hooks.validateHeader(preamble);
      if verdict.Invalid? {
        errors.messages := errors.messages + verdict.messages;
        return false;
      }
      var granted := Malloc(ObjectTableBytes(ObjectCount(preamble)));
      if !granted {
        AddError(HeaderCorruption);
        return false;
      }
      headerObjects := Some([]);
      ok := true;
    }

    /** The data object was read from `data_offset`, and the source stands at the first packet. */
    ghost predicate DataLoaded()
      reads this`dataOffset, this`data, source
    {
      0 <= dataOffset && dataOffset + DataObjectSize <= |source.data| &&
      data == Some(source.data[dataOffset..dataOffset + DataObjectSize]) &&
      source.pos == dataOffset + DataObjectSize
    }

    /**
     * `ReadData`, on a parser without a data object and a source standing at
     * `pos`, succeeds: the header's end can be sought from there, `Malloc`
     * grants the 50-byte block and the data holds the object.
     */
    ghost predicate DataReadableFrom(pos: int)
      reads this`header
      requires header.Some?
    {
      var start := HeaderSize(header.value);
      (start == pos || (source.seekable && start <= |source.data|)) &&
      MallocAccepts(header, DataObjectSize) && start + DataObjectSize <= |source.data|
    }

    /**
     * The messages a first `ReadData` adds from position `pos`: `Malloc`'s
     * and "Data corruption in data." when the seek succeeds but the 50-byte
     * block is refused, and none otherwise.
     */
    ghost function DataMessages(pos: int): seq<string>
      reads this`header
      requires header.Some?
    {
      var start := HeaderSize(header.value);
      if (start == pos || (source.seekable && start <= |source.data|)) && !MallocAccepts(header, DataObjectSize)
      then MallocErrors(header, DataObjectSize) + [DataCorruption]
      else []
    }

    /**
     * What `ReadHeader` needs to succeed once the preamble is validated and the
     * object table granted, with the objects read from position `from`: every
     * declared object was read, the header rules accept them, and the data
     * object can be read where the object loop left the source.
     */
    ghost predicate HeaderComplete(from: int)
      reads this`header, this`headerObjects
      requires header.Some? && headerObjects.Some?
    {
      |headerObjects.value| == ObjectCount(header.value) && CheckHeaderObjects(ObjectKinds()) == Accepted &&
      DataReadableFrom(from + TotalBytes(headerObjects.value))
    }

    /**
     * `ReadHeader`, on a parser in its initial state: read the preamble,
     * validate it, read `object_count` objects enforcing the singleton rules
     * as each arrives and filling the stream table, then demand the required
     * objects, compute the data layout and read the data object.
     */
    method ReadHeader() returns (ok: bool)
      requires Valid() && Initial()
      modifies this`header, this`headerObjects, this`fileProperties, this`headerExtension, this`marker, this`scriptCommand, this`data, this`dataOffset, this`packetOffset, this`packetOffsetEnd, this`dataFrom,
        source, errors, streamProperties
      ensures Valid()
      ensures header.Some?
      ensures old(source.pos) + HeaderPreambleSize > |source.data| ==>
        !ok && header == Some(seq(HeaderPreambleSize, _ => 0 as bv8)) && headerObjects.None? &&
        errors.messages == old(errors.messages)
      ensures old(source.pos) + HeaderPreambleSize <= |source.data| ==>
        header == Some(source.data[old(source.pos)..old(source.pos) + HeaderPreambleSize])
      ensures old(source.pos) + HeaderPreambleSize <= |source.data| && hooks.validateHeader(header.value).Invalid? ==>
        !ok && headerObjects.None? && errors.messages == old(errors.messages) + hooks.validateHeader(header.value).messages
      ensures (old(source.pos) + HeaderPreambleSize <= |source.data| && hooks.validateHeader(header.value).Validated? &&
               !MallocAccepts(header, ObjectTableBytes(ObjectCount(header.value)))) ==>
        !ok && headerObjects.None? &&
        errors.messages == old(errors.messages) + MallocErrors(header, ObjectTableBytes(ObjectCount(header.value))) + [HeaderCorruption]
      ensures headerObjects.Some? ==>
        hooks.validateHeader(header.value).Validated? && MallocAccepts(header, ObjectTableBytes(ObjectCount(header.value))) &&
        SlotsMatch(headerObjects.value, old(streamProperties[..]))
      ensures headerObjects.Some? && FirstDuplicate(ObjectKinds()).Rejected? ==>
        !ok && errors.messages == old(errors.messages) + [FirstDuplicate(ObjectKinds()).message]
      ensures (headerObjects.Some? && |headerObjects.value| == ObjectCount(header.value) &&
               CheckHeaderObjects(ObjectKinds()).Rejected?) ==>
        !ok && errors.messages == old(errors.messages) + [CheckHeaderObjects(ObjectKinds()).message]
      ensures ok ==>
        headerObjects.Some? && |headerObjects.value| == ObjectCount(header.value) &&
        CheckHeaderObjects(ObjectKinds()) == Accepted && fileProperties.Some?
      ensures ok ==>
        dataOffset == HeaderSize(header.value) &&
        PacketLayout() == LayoutOf(HeaderSize(header.value), DataPacketCount(fileProperties.value), MinPacketSize(fileProperties.value))
      ensures ok ==> DataLoaded()
      ensures ok <==> headerObjects.Some? && HeaderComplete(old(source.pos) + HeaderPreambleSize)
      ensures headerObjects.Some? ==> ObjectsLoaded(Reader(hooks, header, source.data), old(source.pos) + HeaderPreambleSize)
      ensures headerObjects.Some? && |headerObjects.value| < ObjectCount(header.value) ==>
        !ok && LoopReported(Reader(hooks, header, source.data), old(source.pos) + HeaderPreambleSize, old(errors.messages))
      ensures (headerObjects.Some? && |headerObjects.value| == ObjectCount(header.value) &&
               CheckHeaderObjects(ObjectKinds()) == Accepted) ==>
        dataFrom == old(source.pos) + HeaderPreambleSize + TotalBytes(headerObjects.value) &&
        errors.messages == old(errors.messages) + DataMessages(dataFrom)
      ensures ok ==> errors.messages == old(errors.messages)
    {
      ok := OpenHeader();
      if !ok {
        return false;
      }
      ghost var pos1, errors1 := source.pos, errors.messages;
      assert pos1 == old(source.pos) + HeaderPreambleSize && errors1 == old(errors.messages);
      ok := ReadHeaderBody();
    }

    /**
     * `ReadHeader` after the preamble: the object loop, the check for the
     * required objects, the packet layout and the data object.
     */
    method ReadHeaderBody() returns (ok: bool)
      requires Valid() && header.Some? && headerObjects == Some([]) && data.None?
      requires fileProperties.None? && headerExtension.None? && marker.None? && scriptCommand.None?
      modifies this`headerObjects, this`fileProperties, this`headerExtension, this`marker, this`scriptCommand, this`data, this`dataOffset, this`packetOffset, this`packetOffsetEnd, this`dataFrom,
        source, errors, streamProperties
      ensures Valid() && headerObjects.Some?
      ensures SlotsMatch(headerObjects.value, old(streamProperties[..]))
      ensures FirstDuplicate(ObjectKinds()).Rejected? ==>
        !ok && errors.messages == old(errors.messages) + [FirstDuplicate(ObjectKinds()).message]
      ensures |headerObjects.value| == ObjectCount(header.value) && CheckHeaderObjects(ObjectKinds()).Rejected? ==>
        !ok && errors.messages == old(errors.messages) + [CheckHeaderObjects(ObjectKinds()).message]
      ensures ok ==>
        |headerObjects.value| == ObjectCount(header.value) && CheckHeaderObjects(ObjectKinds()) == Accepted &&
        fileProperties.Some?
      ensures ok ==>
        dataOffset == HeaderSize(header.value) &&
        PacketLayout() == LayoutOf(HeaderSize(header.value), DataPacketCount(fileProperties.value), MinPacketSize(fileProperties.value))
      ensures ok ==> DataLoaded()
      ensures ok <==> HeaderComplete(old(source.pos))
      ensures ObjectsLoaded(Reader(hooks, header, source.data), old(source.pos))
      ensures |headerObjects.value| < ObjectCount(header.value) ==>
        !ok && LoopReported(Reader(hooks, header, source.data), old(source.pos), old(errors.messages))
      ensures |headerObjects.value| == ObjectCount(header.value) && CheckHeaderObjects(ObjectKinds()) == Accepted ==>
        dataFrom == old(source.pos) + TotalBytes(headerObjects.value) &&
        errors.messages == old(errors.messages) + DataMessages(dataFrom)
      ensures ok ==> errors.messages == old(errors.messages)
    {
      ghost var pos0, errors0 := source.pos, errors.messages;
      assert pos0 == old(source.pos) && errors0 == old(errors.messages);
      var anyStreams;
      ok, anyStreams := ReadHeaderObjects();
      if !ok {
        return false;
      }
      ok := RequireObjects(old(streamProperties[..]), anyStreams);
      if !ok {
        return false;
      }
      ok := LocateData();
    }

    /**
     * After the object loop of `ReadHeader`: demand a file properties object,
     * a header extension and a stream, in that order.
     */
    method RequireObjects(ghost table0: seq<Option<HeaderObject>>, anyStreams: bool) returns (ok: bool)
      requires headerObjects.Some? && |table0| == StreamSlots
      requires SlotsMatch(headerObjects.value, table0)
      requires FirstDuplicate(ObjectKinds()) == Accepted
      requires anyStreams == (CountKind(ObjectKinds(), StreamPropertiesKind) > 0)
      modifies errors
      ensures ok == (CheckHeaderObjects(ObjectKinds()) == Accepted)
      ensures ok ==> fileProperties.Some?
      ensures errors.messages == old(errors.messages) + (if ok then [] else [CheckHeaderObjects(ObjectKinds()).message])
    {
      FirstOfKindCount(headerObjects.value, hooks.guidType, FilePropertiesKind);
      FirstOfKindCount(headerObjects.value, hooks.guidType, HeaderExtensionKind);
      if fileProperties.None? {
        AddError(NoFileProperties);
        return false;
      }
      if headerExtension.None? {
        AddError(NoHeaderExtension);
        return false;
      }
      if !anyStreams {
        AddError(NoStreams);
        return false;
      }
      return true;
    }

    /** The end of `ReadHeader`: compute the packet layout and read the data object. */
    method LocateData() returns (ok: bool)
      requires Valid() && header.Some? && fileProperties.Some? && data.None?
      modifies this`data, this`dataOffset, this`packetOffset, this`packetOffsetEnd, this`dataFrom, source, errors
      ensures Valid()
      ensures dataFrom == old(source.pos)
      ensures ok ==>
        dataOffset == HeaderSize(header.value) &&
        PacketLayout() == LayoutOf(HeaderSize(header.value), DataPacketCount(fileProperties.value), MinPacketSize(fileProperties.value))
      ensures ok ==> DataLoaded()
      ensures ok <==> DataReadableFrom(old(source.pos))
      ensures errors.messages == old(errors.messages) + DataMessages(dataFrom)
      ensures ok ==> errors.messages == old(errors.messages)
    {
      dataFrom := source.pos;
      var fp := fileProperties.value;
      dataOffset := HeaderSize(header.value);
      packetOffset := dataOffset + DataObjectSize;
      packetOffsetEnd := packetOffset + (DataPacketCount(fp) * MinPacketSize(fp)) % TwoTo64;
      ok := ReadData();
    }

    /**
     * `ReadData`: refuse a second call; otherwise seek to the end of the header
     * and read the data object into a block `Malloc` must grant.
     */
    method ReadData() returns (ok: bool)
      requires Valid() && header.Some?
      modifies this`data, source, errors
      ensures Valid()
      ensures old(data).Some? ==> !ok && data == old(data) && errors.messages == old(errors.messages) + [ReadDataTwice]
      ensures old(data).None? ==>
        var start := HeaderSize(header.value);
        (ok <==> old(source.CanSeekTo(start)) && MallocAccepts(header, DataObjectSize) && start + DataObjectSize <= |source.data|) &&
        (ok ==> data == Some(source.data[start..start + DataObjectSize]) && source.pos == start + DataObjectSize) &&
        (!ok ==> data.None?) &&
        errors.messages == old(errors.messages) +
          (if old(source.CanSeekTo(start)) && !MallocAccepts(header, DataObjectSize)
           then MallocErrors(header, DataObjectSize) + [DataCorruption] else [])
    {
      if data.Some? {
        AddError(ReadDataTwice);
        return false;
      }
      var start := HeaderSize(header.value);
      var sought := source.Seek(start);
      if !sought {
        return false;
      }
      var granted := Malloc(DataObjectSize);
      if !granted {
        AddError(DataCorruption);
        return false;
      }
      var read, bytes := source.Read(DataObjectSize);
      if !read {
        return false;
      }
      data := Some(bytes);
      return true;
    }

    /** The data layout `ReadHeader` computed (needs the file properties). */
    function PacketLayout(): Layout
      reads this
      requires fileProperties.Some?
    {
      Layout(packetOffset, packetOffsetEnd, DataPacketCount(fileProperties.value), MinPacketSize(fileProperties.value))
    }

    /** `GetPacketCount`: the file properties' data packet count. */
    function GetPacketCount(): nat
      reads this
      requires fileProperties.Some?
    {
      DataPacketCount(fileProperties.value)
    }

    /**
     * `ReadPacket (packet, index)`: read one packet at the offset of a
     * non-negative index, or at the current position for a negative one.
     */
    method ReadPacket(index: int) returns (ok: bool, payloads: seq<Payload>)
      requires Valid() && fileProperties.Some?
      modifies source
      ensures Valid()
      ensures PacketRead(ok, payloads, source.pos) ==
        ReadPacketAt(hooks.decodePacket, source.data, source.seekable, old(source.pos), PacketLayout(), index)
    {
      if index >= 0 {
        var position := PacketOffset(PacketLayout(), index);
        if position == 0 {
          return false, [];
        }
        if source.pos != position {
          var sought := source.Seek(position);
          if !sought {
            return false, [];
          }
        }
      }
      var at := source.pos;
      var r := DecodeAt(hooks.decodePacket, source.data, at);
      if !r.ok {
        return false, [];
      }
      var read, _ := source.Read(r.pos - at);
      return true, r.payloads;
    }

    /**
     * `GetPacketIndexOfPts (stream_id, pts)`, reading each packet into a
     * packet of its own: from packet 0 on, the index before the first packet
     * whose first payload of the stream passes `pts`; -1 when a packet cannot
     * be read or has no payload of the stream.
     */
    method GetPacketIndexOfPts(streamId: int, pts: int) returns (r: int)
      requires Valid() && fileProperties.Some?
      modifies source
      ensures Valid()
      ensures PtsScan(r, source.pos) ==
        IndexOfPts(hooks.decodePacket, source.data, source.seekable, old(source.pos), PacketLayout(), streamId, pts, 0)
    {
      ghost var decode, bytes, seekable, l := hooks.decodePacket, source.data, source.seekable, PacketLayout();
      ghost var s0 := IndexOfPts(decode, bytes, seekable, source.pos, l, streamId, pts, 0);
      var result := 0;
      while true
        invariant Valid() && result >= 0
        invariant IndexOfPts(decode, bytes, seekable, source.pos, l, streamId, pts, result) == s0
        decreases Int32(l.packetCount) - result
      {
        ghost var pos := source.pos;
        var read, payloads := ReadPacket(result);
        ghost var rd := ReadPacketAt(decode, bytes, seekable, pos, l, result);
        assert rd == PacketRead(read, payloads, source.pos);
        if !read {
          return -1;
        }
        var current := GetPts(Packet(Some(payloads)), streamId);
        if current == NoPts {
          return -1;
        }
        if current > pts {
          return result - 1;
        }
        result := result + 1;
      }
    }

    /**
     * `GetHeaderObjectIndex`: the index of the first object from `start` on
     * with the given GUID, -1 for none or for a negative start. The scan stops
     * at the first NULL slot, that is after the objects read so far.
     */
    method GetHeaderObjectIndex(guid: seq<bv8>, start: int) returns (r: int)
      requires Valid() && headerObjects.Some? && start <= ObjectCount(header.value)
      ensures r == -1 <==>
        start < 0 || forall j :: start <= j < |headerObjects.value| ==> headerObjects.value[j].id != guid
      ensures r != -1 ==>
        0 <= start <= r < |headerObjects.value| && headerObjects.value[r].id == guid &&
        forall j :: start <= j < r ==> headerObjects.value[j].id != guid
    {
      if start < 0 {
        return -1;
      }
      var objs := headerObjects.value;
      var i := start;
      while i < |objs|
        invariant start <= i && (i > |objs| ==> i == start)
        invariant forall j :: start <= j < i && j < |objs| ==> objs[j].id != guid
        decreases |objs| - i
      {
        if objs[i].id == guid {
          return i;
        }
        i := i + 1;
      }
      return -1;
    }
  }
}

/**
 * The parser's error chain and its byte source.
 *
 * The chain is an append-only list of messages whose last element is the
 * "last error". The byte source stands for the embedder's seekable stream: a
 * fixed sequence of bytes with a read position.
 */
module AsfSource {
  import opened AsfCore

  /** The linked list of error messages of `ASFParser`, as the sequence of its messages. */
  class ErrorChain {
    var messages: seq<string>

    constructor ()
      ensures messages == []
    {
      messages := [];
    }

    /** `AddError`: link a new node after the current tail. */
    method AddError(msg: string)
      modifies this
      ensures messages == old(messages) + [msg]
    {
      messages := messages + [msg];
    }

    /** `GetLastError`: walk to the tail; NULL when nothing was added. */
    method GetLastError() returns (r: Option<string>)
      ensures r.None? <==> messages == []
      ensures r.Some? ==> |messages| > 0 && r.value == messages[|messages| - 1]
    {
      if |messages| == 0 {
        return None;
      }
      var last := 0;
      while last + 1 < |messages|
        invariant 0 <= last < |messages|
        decreases |messages| - last
      {
        last := last + 1;
      }
      return Some(messages[last]);
    }
  }

  /** Number of bytes a 2-bit length-type code reads (section 5.2.2 of the ASF specification). */
  function EncodedWidth(code: int): (n: nat)
    requires 1 <= code <= 3
    ensures n == 1 || n == 2 || n == 4
  {
    if code == 3 then 4 else code
  }

  datatype EncodedRead = EncodedRead(ok: bool, value: int, pos: nat)

  /**
   * `ReadEncoded` on a byte sequence read from position `pos`: code 0 reads
   * nothing and keeps `dest`, codes 1, 2 and 3 read 1, 2 and 4 bytes and
   * zero-extend them, any other code fails. A read past the end fails and keeps
   * `dest` and the position.
   */
  function ReadEncodedAt(code: int, data: seq<bv8>, pos: nat, dest: int): (r: EncodedRead)
    requires pos <= |data|
    ensures r.pos <= |data|
    ensures code == 0 ==> r == EncodedRead(true, dest, pos)
    ensures 1 <= code <= 3 ==>
      var n := EncodedWidth(code);
      r.ok == (pos + n <= |data|) &&
      (r.ok ==> r.pos == pos + n && r.value == LittleEndian(data[pos..pos + n]) && 0 <= r.value < Pow256(n)) &&
      (!r.ok ==> r.pos == pos && r.value == dest)
    ensures !(0 <= code <= 3) ==> r == EncodedRead(false, dest, pos)
  {
    if code == 0 then EncodedRead(true, dest, pos)
    else if 1 <= code <= 3 then
      var n := EncodedWidth(code);
      if pos + n <= |data| then
        LittleEndianBound(data[pos..pos + n], n);
        EncodedRead(true, LittleEndian(data[pos..pos + n]), pos + n)
      else EncodedRead(false, dest, pos)
    else EncodedRead(false, dest, pos)
  }

  /** The embedder's byte stream (`ASFSource` over an `IMediaSource`). */
  class ByteSource {
    const data: seq<bv8>
    const seekable: bool
    var pos: nat

    ghost predicate Valid()
      reads this
    {
      pos <= |data|
    }

    constructor (data: seq<bv8>, seekable: bool)
      ensures Valid() && this.data == data && this.seekable == seekable && pos == 0
    {
      this.data := data;
      this.seekable := seekable;
      pos := 0;
    }

    /** A target the source can be positioned at: the current position, or any position of a seekable source. */
    predicate CanSeekTo(target: int)
      reads this
    {
      target == pos || (seekable && 0 <= target <= |data|)
    }

    /** `Read`: all `n` bytes or failure; a failed read leaves the position. */
    method Read(n: nat) returns (ok: bool, bytes: seq<bv8>)
      requires Valid()
      modifies this
      ensures Valid()
      ensures ok == (old(pos) + n <= |data|)
      ensures ok ==> bytes == data[old(pos)..old(pos) + n] && pos == old(pos) + n
      ensures !ok ==> bytes == [] && pos == old(pos)
    {
      if pos + n <= |data| {
        bytes := data[pos..pos + n];
        pos := pos + n;
        ok := true;
      } else {
        bytes := [];
        ok := false;
      }
    }

    /** `Seek (offset, SEEK_SET)`. */
    method Seek(target: int) returns (ok: bool)
      requires Valid()
      modifies this
      ensures Valid()
      ensures ok == old(CanSeekTo(target))
      ensures ok ==> pos == target
      ensures !ok ==> pos == old(pos)
    {
      ok := CanSeekTo(target);
      if ok {
        pos := target;
      }
    }

    /**
     * `ASFSource::ReadEncoded`: decode a 2-bit length-type field. An invalid
     * code adds "Invalid read length: <code>." (printed as a signed `int`) to
     * the parser's error chain.
     */
    method ReadEncoded(length: int, dest: int, errors: ErrorChain) returns (ok: bool, value: int)
      requires Valid() && 0 <= length < TwoTo32
      modifies this, errors
      ensures Valid()
      ensures EncodedRead(ok, value, pos) == ReadEncodedAt(length, data, old(pos), dest)
      ensures errors.messages == if length <= 3 then old(errors.messages)
        else old(errors.messages) + ["Invalid read length: " + IntToString(Int32(length)) + "."]
    {
      if length == 0 {
        return true, dest;
      } else if length <= 3 {
        var bytes;
        ok, bytes := Read(EncodedWidth(length));
        if ok {
          value := LittleEndian(bytes);
        } else {
          value := dest;
        }
      } else {
        errors.AddError("Invalid read length: " + IntToString(Int32(length)) + ".");
        return false, dest;
      }
    }
  }
}

/** Standard input as a byte sequence with a read position, standard output as a growing one. */
module Streams {
  import opened Wrappers
  import opened Bytes

  const DISCARD_CHUNK: nat := 4096

  class InputStream {
    const data: ByteString
    var pos: nat

    constructor (data: ByteString)
      ensures this.data == data && pos == 0
    {
      this.data := data;
      pos := 0;
    }

    ghost predicate Valid()
      reads this
    {
      pos <= |data|
    }

    /** Bytes not yet read. */
    function Rest(): ByteString
      requires Valid()
      reads this
    {
      data[pos..]
    }

    /** read_exact: all `size` bytes, or failure at the end of the stream. */
    method ReadExact(size: nat) returns (buffer: Option<ByteString>)
      requires Valid()
      modifies this
      ensures Valid()
      ensures buffer == if size <= |old(Rest())| then Some(old(Rest())[..size]) else None
      ensures Rest() == if size <= |old(Rest())| then old(Rest())[size..] else []
    {
      if size <= |data| - pos {
        buffer := Some(data[pos..pos + size]);
        assert data[pos..][..size] == data[pos..pos + size] && data[pos..][size..] == data[pos + size..];
        pos := pos + size;
      } else {
        buffer := None;
        pos := |data|;
      }
    }

    method ReadU32() returns (value: Option<UInt32>)
      requires Valid()
      modifies this
      ensures Valid()
      ensures value == if 4 <= |old(Rest())| then Some(DecodeU32(old(Rest()))) else None
      ensures Rest() == if 4 <= |old(Rest())| then old(Rest())[4..] else []
    {
      var buffer := ReadExact(4);
      value := if buffer.None? then None else Some(DecodeU32(buffer.value));
    }

    /** discard_bytes: read and drop, chunk by chunk. */
    method DiscardBytes(count: nat) returns (ok: bool)
      requires Valid()
      modifies this
      ensures Valid()
      ensures ok <==> count <= |old(Rest())|
      ensures Rest() == if ok then old(Rest())[count..] else []
    {
      var toDiscard := count;
      while toDiscard > 0
        invariant Valid() && 0 <= toDiscard <= count && count - toDiscard <= |old(Rest())|
        invariant Rest() == old(Rest())[count - toDiscard..]
      {
        var chunk := if toDiscard < DISCARD_CHUNK then toDiscard else DISCARD_CHUNK;
        var buffer := ReadExact(chunk);
        if buffer.None? {
          return false;
        }
        assert Rest() == old(Rest())[count - toDiscard..][chunk..];
        toDiscard := toDiscard - chunk;
      }
      ok := true;
    }
  }

  class OutputStream {
    var written: ByteString

    constructor ()
      ensures written == []
    {
      written := [];
    }

    method Write(chunk: ByteString)
      modifies this
      ensures written == old(written) + chunk
    {
      written := written + chunk;
    }

    method WriteU32(value: UInt32)
      modifies this
      ensures written == old(written) + EncodeU32(value)
    {
      Write(EncodeU32(value));
    }
  }
}

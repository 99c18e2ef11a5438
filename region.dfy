/**
 * The part of a bitstring `ConstBitStream` that the packet-content engine
 * uses: an immutable byte buffer with a read cursor, addressed in whole bytes.
 */
module Regions {
  import opened Wrappers
  import opened Utils
  import opened Errors

  /**
   * Index of the first `b` in `s`: what a byte-aligned `find` reports when it
   * searches from the start of the stream, which is its default.
   */
  function FirstIndex(s: seq<byte>, b: byte): (r: Option<nat>)
    ensures r.Some? ==> r.value < |s| && s[r.value] == b
    ensures r.Some? ==> forall j :: 0 <= j < r.value ==> s[j] != b
    ensures r.None? ==> forall j :: 0 <= j < |s| ==> s[j] != b
  {
    if |s| == 0 then None
    else if s[0] == b then Some(0)
    else match FirstIndex(s[1..], b)
      case None => None
      case Some(k) => Some(k + 1)
  }

  class Region {
    const data: seq<byte>
    /** The cursor, as a byte offset (`bytepos`). */
    var pos: nat

    ghost predicate Valid()
      reads this
    {
      pos <= |data|
    }

    /** `ConstBitStream(bytes=bytes)`: the cursor starts at the beginning. */
    constructor (bytes: seq<byte>)
      ensures Valid() && data == bytes && pos == 0
    {
      data := bytes;
      pos := 0;
    }

    /** `read('uint:16')`: a big-endian 16-bit unsigned integer. */
    method ReadUInt16() returns (r: Result<nat, Error>)
      requires Valid()
      modifies this
      ensures Valid()
      ensures old(pos) + 2 <= |data| ==>
        r == Ok(BytesToLong(data[old(pos)..old(pos) + 2])) && pos == old(pos) + 2
      ensures |data| < old(pos) + 2 ==> r == Err(ReadError) && pos == old(pos)
    {
      if |data| < pos + 2 {
        return Err(ReadError);
      }
      r := Ok(BytesToLong(data[pos..pos + 2]));
      pos := pos + 2;
    }

    /** `read(8 * n)` or `read('bytes:n')`: the next `n` bytes. */
    method ReadBytes(n: nat) returns (r: Result<seq<byte>, Error>)
      requires Valid()
      modifies this
      ensures Valid()
      ensures old(pos) + n <= |data| ==>
        r == Ok(data[old(pos)..old(pos) + n]) && pos == old(pos) + n
      ensures |data| < old(pos) + n ==> r == Err(ReadError) && pos == old(pos)
    {
      if |data| < pos + n {
        return Err(ReadError);
      }
      r := Ok(data[pos..pos + n]);
      pos := pos + n;
    }

    /** `read('bytes')`: everything left; never fails. */
    method ReadRest() returns (rest: seq<byte>)
      requires Valid()
      modifies this
      ensures Valid()
      ensures rest == data[old(pos)..] && pos == |data|
    {
      rest := data[pos..];
      pos := |data|;
    }

    /**
     * `find(bytes([b]), bytealigned=True)`: searches from the start of the
     * buffer; when found the cursor moves to the match, otherwise it stays.
     */
    method Find(b: byte) returns (found: bool)
      requires Valid()
      modifies this
      ensures Valid()
      ensures found == FirstIndex(data, b).Some?
      ensures pos == if found then FirstIndex(data, b).value else old(pos)
    {
      var i := 0;
      while i < |data| && data[i] != b
        invariant 0 <= i <= |data|
        invariant forall j :: 0 <= j < i ==> data[j] != b
      {
        i := i + 1;
      }
      found := i < |data|;
      if found {
        pos := i;
      }
    }
  }
}

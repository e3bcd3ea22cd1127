/** The cursor writer all encoders use, and the zeroed buffers they write to. */
module Buffers {
  import opened Bytes

  /** bufferWriter: a fixed buffer and a position. Writing past the end
      panics in the source, so room is a precondition here. */
  class BufferWriter {
    const buff: array<byte>
    var indx: nat

    ghost predicate Valid()
      reads this
    {
      indx <= buff.Length
    }

    constructor (buff: array<byte>)
      ensures this.buff == buff && indx == 0 && Valid()
    {
      this.buff := buff;
      indx := 0;
    }

    /** u8, u16, u32 and u64: the low n octets of v, big-endian. */
    method Put(v: int, n: nat)
      requires Valid() && n > 0 && indx + n <= buff.Length
      modifies this`indx, buff
      ensures Valid() && indx == old(indx) + n
      ensures buff[..] == Overwrite(old(buff[..]), old(indx), Be(v, n))
    {
      Copy(Be(v, n));
    }

    /** bytes. The source's bounds hint indexes the last octet written, so an
        empty slice is legal only away from the start of the buffer. */
    method Put0(v: seq<byte>)
      requires Valid() && indx + |v| <= buff.Length
      requires v == [] ==> indx > 0
      modifies this`indx, buff
      ensures Valid() && indx == old(indx) + |v|
      ensures buff[..] == Overwrite(old(buff[..]), old(indx), v)
    {
      Copy(v);
    }

    method Copy(v: seq<byte>)
      requires Valid() && indx + |v| <= buff.Length
      modifies this`indx, buff
      ensures Valid() && indx == old(indx) + |v|
      ensures buff[..] == Overwrite(old(buff[..]), old(indx), v)
    {
      forall i | 0 <= i < |v| {
        buff[indx + i] := v[i];
      }
      indx := indx + |v|;
    }

    /** skip: zero n octets, one at a time. */
    method Skip(n: nat)
      requires Valid() && indx + n <= buff.Length
      modifies this`indx, buff
      ensures Valid() && indx == old(indx) + n
      ensures buff[..] == Overwrite(old(buff[..]), old(indx), Zeros(n))
    {
      var start, end := indx, indx + n;
      while indx < end
        invariant start <= indx <= end
        invariant forall i :: 0 <= i < buff.Length ==>
                    buff[i] == (if start <= i < indx then 0 else old(buff[i]))
      {
        buff[indx] := 0;
        indx := indx + 1;
      }
    }

    method SetPosition(pos: nat)
      requires pos <= buff.Length
      modifies this`indx
      ensures indx == pos && Valid()
    {
      indx := pos;
    }
  }

  const DEFAULT_SIZE := 4096
  const MAX_CACHED := 2 * 1024 * 1024 + 1

  /** writeBuffer: hands out zeroed space, reusing one array. */
  class WriteBuffer {
    var store: array<byte>

    constructor ()
      ensures store.Length == DEFAULT_SIZE && fresh(store)
    {
      store := new byte[DEFAULT_SIZE];
    }

    /** take returns a slice of length octets: the front of store when it
        fits, else a new array that is kept only below the cap. Every octet
        is zero, and the retained array never outgrows the cap. */
    method Take(length: nat) returns (buf: array<byte>)
      requires store.Length <= MAX_CACHED
      modifies this, store
      ensures buf.Length >= length && buf[..length] == Zeros(length)
      ensures store.Length <= MAX_CACHED
      ensures length <= old(store.Length) ==> buf == store == old(store)
      ensures length > old(store.Length) ==> fresh(buf) && buf.Length == length
      ensures store == old(store) || store == buf
    {
      if length <= store.Length {
        buf := store;
        forall i | 0 <= i < length {
          buf[i] := 0;
        }
      } else {
        buf := new byte[length](_ => 0);
        if length <= MAX_CACHED {
          store := buf;
        }
      }
    }
  }
}

/**
 * The part of Netty's `ByteBuf` the codec uses: a byte array with a reader
 * index, a writer index and a marked reader index. The readable bytes are
 * those between the reader and the writer index.
 */
module Buffers {
  import opened JavaLang
  import opened BigEndian

  class ByteBuf {
    var data: array<Byte>
    var readerIndex: nat
    var writerIndex: nat
    var markedReaderIndex: nat

    ghost predicate Valid()
      reads this
    {
      readerIndex <= writerIndex <= data.Length && markedReaderIndex <= writerIndex
    }

    /** The bytes not yet read. */
    function Readable(): seq<Byte>
      reads this, data
      requires Valid()
    {
      data[readerIndex..writerIndex]
    }

    /** Every byte written so far, read or not. */
    function Written(): seq<Byte>
      reads this, data
      requires Valid()
    {
      data[..writerIndex]
    }

    /** `readableBytes()`. */
    function ReadableBytes(): (n: nat)
      reads this
      requires Valid()
    {
      writerIndex - readerIndex
    }

    /** An empty buffer, as the encoder's `out` starts. */
    constructor (capacity: nat)
      ensures Valid() && fresh(data)
      ensures Written() == [] && readerIndex == 0 && markedReaderIndex == 0
    {
      data := new Byte[capacity](_ => 0);
      readerIndex, writerIndex, markedReaderIndex := 0, 0, 0;
    }

    /** A buffer whose readable bytes are `bytes`, as the decoder's `in` is handed to it. */
    constructor Wrap(bytes: seq<Byte>)
      ensures Valid() && fresh(data)
      ensures Written() == bytes && Readable() == bytes
      ensures readerIndex == 0 && markedReaderIndex == 0
    {
      data := new Byte[|bytes|](i requires 0 <= i < |bytes| => bytes[i]);
      readerIndex, writerIndex, markedReaderIndex := 0, |bytes|, 0;
      new;
      assert data[..] == bytes;
    }

    method MarkReaderIndex()
      requires Valid()
      modifies this
      ensures Valid() && data == old(data)
      ensures readerIndex == old(readerIndex) && writerIndex == old(writerIndex)
      ensures markedReaderIndex == readerIndex
    {
      markedReaderIndex := readerIndex;
    }

    method ResetReaderIndex()
      requires Valid()
      modifies this
      ensures Valid() && data == old(data)
      ensures readerIndex == old(markedReaderIndex) && writerIndex == old(writerIndex)
      ensures markedReaderIndex == old(markedReaderIndex)
    {
      readerIndex := markedReaderIndex;
    }

    /** `readBytes(byte[n])`: the next `n` readable bytes. */
    method ReadBytes(n: nat) returns (s: seq<Byte>)
      requires Valid() && n <= ReadableBytes()
      modifies this
      ensures Valid() && data == old(data)
      ensures s == old(Readable())[..n] && Readable() == old(Readable())[n..]
      ensures readerIndex == old(readerIndex) + n && s == data[old(readerIndex)..readerIndex]
      ensures writerIndex == old(writerIndex) && markedReaderIndex == old(markedReaderIndex)
    {
      ghost var before := data[readerIndex..writerIndex];
      s := data[readerIndex..readerIndex + n];
      assert s == before[..n];
      readerIndex := readerIndex + n;
      assert data[readerIndex..writerIndex] == before[n..];
    }

    /** `readByte`, `readShort`, `readInt` and `readLong`: `width` bytes read big-endian, signed. */
    method ReadSigned(width: nat) returns (v: int)
      requires Valid() && width <= ReadableBytes()
      modifies this
      ensures Valid() && data == old(data)
      ensures v == DecodeSigned(old(Readable())[..width]) && Readable() == old(Readable())[width..]
      ensures readerIndex == old(readerIndex) + width && v == DecodeSigned(data[old(readerIndex)..readerIndex])
      ensures writerIndex == old(writerIndex) && markedReaderIndex == old(markedReaderIndex)
    {
      var s := ReadBytes(width);
      v := DecodeSigned(s);
    }

    /** `writeBytes`: appends `s`, growing the backing array when it is full. */
    method WriteBytes(s: seq<Byte>)
      requires Valid()
      modifies this, data
      ensures Valid() && (data == old(data) || fresh(data))
      ensures Written() == old(Written()) + s
      ensures readerIndex == old(readerIndex) && markedReaderIndex == old(markedReaderIndex)
    {
      if writerIndex + |s| > data.Length {
        var grown := new Byte[writerIndex + |s|](_ => 0);
        forall i | 0 <= i < writerIndex {
          grown[i] := data[i];
        }
        data := grown;
      }
      forall i | 0 <= i < |s| {
        data[writerIndex + i] := s[i];
      }
      writerIndex := writerIndex + |s|;
    }

    /** `writeByte`, `writeShort`, `writeInt` and `writeLong` of `v` over `width` bytes. */
    method WriteSigned(v: int, width: nat)
      requires Valid() && FitsSigned(v, width)
      modifies this, data
      ensures Valid() && (data == old(data) || fresh(data))
      ensures Written() == old(Written()) + EncodeSigned(v, width)
      ensures readerIndex == old(readerIndex) && markedReaderIndex == old(markedReaderIndex)
    {
      WriteBytes(EncodeSigned(v, width));
    }
  }
}

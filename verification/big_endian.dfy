/**
 * Netty's default byte order: multi-byte integers are written and read
 * big-endian (most significant byte first), signed values in two's complement.
 */
module BigEndian {
  import opened JavaLang

  function Pow256(n: nat): (p: nat)
    ensures p >= 1
  {
    if n == 0 then 1 else 256 * Pow256(n - 1)
  }

  lemma Pow256Widths()
    ensures Pow256(1) == 0x100 && Pow256(2) == 0x1_0000
    ensures Pow256(4) == 0x1_0000_0000
    ensures Pow256(8) == 0x1_0000_0000_0000_0000
  {
  }

  lemma DivBound(u: nat, p: nat)
    requires u < 256 * p
    ensures u / 256 < p
  {
  }

  /** The `n`-byte big-endian representation of an unsigned `u`. */
  function ToBytes(u: nat, n: nat): (s: seq<Byte>)
    requires u < Pow256(n)
    ensures |s| == n
  {
    if n == 0 then []
    else
      DivBound(u, Pow256(n - 1));
      ToBytes(u / 256, n - 1) + [u % 256]
  }

  /** The unsigned value of big-endian bytes. */
  function FromBytes(s: seq<Byte>): (u: nat)
    ensures u < Pow256(|s|)
  {
    if |s| == 0 then 0
    else
      var high := FromBytes(s[..|s| - 1]);
      assert high * 256 + s[|s| - 1] < Pow256(|s|) by {
        assert high + 1 <= Pow256(|s| - 1);
        assert (high + 1) * 256 <= Pow256(|s| - 1) * 256;
      }
      high * 256 + s[|s| - 1]
  }

  lemma {:induction false} FromToBytes(u: nat, n: nat)
    requires u < Pow256(n)
    ensures FromBytes(ToBytes(u, n)) == u
  {
    if n > 0 {
      DivBound(u, Pow256(n - 1));
      var s := ToBytes(u, n);
      assert s[..n - 1] == ToBytes(u / 256, n - 1);
      FromToBytes(u / 256, n - 1);
    }
  }

  lemma {:induction false} ToFromBytes(s: seq<Byte>)
    ensures ToBytes(FromBytes(s), |s|) == s
  {
    if |s| > 0 {
      var high := FromBytes(s[..|s| - 1]);
      var u := FromBytes(s);
      assert u / 256 == high && u % 256 == s[|s| - 1];
      ToFromBytes(s[..|s| - 1]);
      assert s == s[..|s| - 1] + [s[|s| - 1]];
    }
  }

  /** `v` fits in `n` bytes as a two's-complement integer. */
  predicate FitsSigned(v: int, n: nat)
  {
    -(Pow256(n) as int) <= 2 * v < Pow256(n)
  }

  lemma JavaWidthsFit(b: Int8, s: Int16, i: Int32, l: Int64)
    ensures FitsSigned(b, 1) && FitsSigned(s, 2) && FitsSigned(i, 4) && FitsSigned(l, 8)
  {
    Pow256Widths();
  }

  /** The bytes a Netty `writeByte`/`writeShort`/`writeInt`/`writeLong` of `v` appends. */
  function EncodeSigned(v: int, n: nat): (s: seq<Byte>)
    requires FitsSigned(v, n)
    ensures |s| == n
  {
    ToBytes(if v < 0 then v + Pow256(n) else v, n)
  }

  /** The value a Netty `readByte`/`readShort`/`readInt`/`readLong` returns for bytes `s`. */
  function DecodeSigned(s: seq<Byte>): (v: int)
    ensures FitsSigned(v, |s|)
  {
    var u := FromBytes(s);
    if 2 * u >= Pow256(|s|) then u - Pow256(|s|) else u
  }

  lemma DecodeEncodeSigned(v: int, n: nat)
    requires FitsSigned(v, n)
    ensures DecodeSigned(EncodeSigned(v, n)) == v
  {
    FromToBytes(if v < 0 then v + Pow256(n) else v, n);
  }

  lemma EncodeDecodeSigned(s: seq<Byte>)
    ensures EncodeSigned(DecodeSigned(s), |s|) == s
  {
    ToFromBytes(s);
  }
}

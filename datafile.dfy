/** The data file: a 16-byte record holding `nums` as two big-endian two's-complement int64s,
    `Previous` first, and the rules `readDatafile` and `writeDatafile` apply to it. */
module Datafile {
  import opened GoInt64
  import opened Engine

  type Byte = b: int | 0 <= b < 256

  /** Bytes in one int64 and in the whole record. */
  const Int64Size: nat := 8
  const RecordSize: nat := 16

  function Pow256(n: nat): (r: nat)
    ensures r >= 1
  {
    if n == 0 then 1 else 256 * Pow256(n - 1)
  }

  lemma Pow256At8()
    ensures Pow256(Int64Size) == Two64
  {
  }

  /** The unsigned value of `bs`, most significant byte first. */
  function FromBigEndian(bs: seq<Byte>): (n: nat)
    ensures n < Pow256(|bs|)
    decreases |bs|
  {
    if bs == [] then 0 else FromBigEndian(bs[..|bs| - 1]) * 256 + bs[|bs| - 1]
  }

  /** The `len` bytes that hold `n`, most significant byte first. */
  function ToBigEndian(n: nat, len: nat): (bs: seq<Byte>)
    requires n < Pow256(len)
    ensures |bs| == len
  {
    if len == 0 then [] else ToBigEndian(n / 256, len - 1) + [n % 256]
  }

  lemma {:induction false} FromToBigEndian(n: nat, len: nat)
    requires n < Pow256(len)
    ensures FromBigEndian(ToBigEndian(n, len)) == n
  {
    if len > 0 {
      var bs := ToBigEndian(n, len);
      assert bs[..len - 1] == ToBigEndian(n / 256, len - 1);
      FromToBigEndian(n / 256, len - 1);
    }
  }

  lemma {:induction false} ToFromBigEndian(bs: seq<Byte>)
    ensures ToBigEndian(FromBigEndian(bs), |bs|) == bs
    decreases |bs|
  {
    if bs != [] {
      var init, last := bs[..|bs| - 1], bs[|bs| - 1];
      var n := FromBigEndian(bs);
      assert n / 256 == FromBigEndian(init) && n % 256 == last;
      ToFromBigEndian(init);
      assert bs == init + [last];
    }
  }

  /** Go's `binary.BigEndian` encoding of an int64 (two's complement). */
  function EncodeInt64(x: Int64): (bs: seq<Byte>)
    ensures |bs| == Int64Size
  {
    Pow256At8();
    ToBigEndian(if x < 0 then x + Two64 else x, Int64Size)
  }

  function DecodeInt64(bs: seq<Byte>): Int64
    requires |bs| == Int64Size
  {
    Pow256At8();
    var u := FromBigEndian(bs);
    if u > MaxInt64 then u - Two64 else u
  }

  lemma DecodeEncodeInt64(x: Int64)
    ensures DecodeInt64(EncodeInt64(x)) == x
  {
    Pow256At8();
    FromToBigEndian(if x < 0 then x + Two64 else x, Int64Size);
  }

  lemma EncodeDecodeInt64(bs: seq<Byte>)
    requires |bs| == Int64Size
    ensures EncodeInt64(DecodeInt64(bs)) == bs
  {
    Pow256At8();
    ToFromBigEndian(bs);
  }

  /** The sign of a stored int64 is the top bit of its first byte. */
  lemma SignIsTopBit(bs: seq<Byte>)
    requires |bs| == Int64Size
    ensures DecodeInt64(bs) < 0 <==> bs[0] >= 128
  {
    Pow256At8();
    LeadingByte(bs);
    assert Pow256(Int64Size - 1) == 0x100_0000_0000_0000;
  }

  /** A big-endian number is its first byte times 256^(len-1) plus the number the other
      bytes spell. */
  lemma {:induction false} LeadingByte(bs: seq<Byte>)
    requires |bs| >= 1
    ensures FromBigEndian(bs) == bs[0] * Pow256(|bs| - 1) + FromBigEndian(bs[1..])
    decreases |bs|
  {
    if |bs| > 1 {
      var init, last := bs[..|bs| - 1], bs[|bs| - 1];
      assert FromBigEndian(bs) == FromBigEndian(init) * 256 + last;
      LeadingByte(init);
      assert init[0] == bs[0];
      assert bs[1..][..|bs| - 2] == init[1..];
      assert FromBigEndian(bs[1..]) == FromBigEndian(init[1..]) * 256 + last;
      var p := Pow256(|bs| - 2);
      assert (bs[0] * p) * 256 == bs[0] * (256 * p);
    }
  }

  /** The 16-byte record `binary.Write` produces for `nums`. */
  function EncodeRecord(p: Pair): (bs: seq<Byte>)
    ensures |bs| == RecordSize
  {
    EncodeInt64(p.previous) + EncodeInt64(p.current)
  }

  /** The pair `binary.Read` decodes from the first 16 bytes. */
  function DecodeRecord(bs: seq<Byte>): (p: Pair)
    requires |bs| >= RecordSize
    ensures p.previous < 0 <==> bs[0] >= 128
  {
    SignIsTopBit(bs[..Int64Size]);
    Pair(DecodeInt64(bs[..Int64Size]), DecodeInt64(bs[Int64Size..RecordSize]))
  }

  /** Decoding what was encoded gives the pair back, whatever follows the record. */
  lemma DecodeEncodeRecord(p: Pair, rest: seq<Byte>)
    ensures DecodeRecord(EncodeRecord(p) + rest) == p
  {
    var bs := EncodeRecord(p) + rest;
    assert bs[..Int64Size] == EncodeInt64(p.previous);
    assert bs[Int64Size..RecordSize] == EncodeInt64(p.current);
    DecodeEncodeInt64(p.previous);
    DecodeEncodeInt64(p.current);
  }

  /** Every 16-byte record is the encoding of the pair it decodes to. */
  lemma EncodeDecodeRecord(bs: seq<Byte>)
    requires |bs| == RecordSize
    ensures EncodeRecord(DecodeRecord(bs)) == bs
  {
    EncodeDecodeInt64(bs[..Int64Size]);
    EncodeDecodeInt64(bs[Int64Size..RecordSize]);
    assert bs == bs[..Int64Size] + bs[Int64Size..RecordSize];
  }

  /** The pair `readDatafile` hands out for the file contents `data`: a short file and the
      pair (0,0) both mean "uninitialised" and yield the start sentinel. */
  function ReadRecord(data: seq<Byte>): (p: Pair)
    ensures p != ZeroPair
  {
    if |data| < RecordSize then Sentinel
    else
      var d := DecodeRecord(data);
      if d == ZeroPair then Sentinel else d
  }

  /** The file contents after `writeDatafile`: the record is written at offset 0, over the
      first 16 bytes; bytes past them stay. */
  function WriteRecord(data: seq<Byte>, p: Pair): (r: seq<Byte>)
    ensures |r| == if |data| < RecordSize then RecordSize else |data|
  {
    EncodeRecord(p) + (if |data| > RecordSize then data[RecordSize..] else [])
  }

  /** A pair other than (0,0) reads back unchanged after it is written. */
  lemma WriteThenRead(data: seq<Byte>, p: Pair)
    requires p != ZeroPair
    ensures ReadRecord(WriteRecord(data, p)) == p
  {
    DecodeEncodeRecord(p, if |data| > RecordSize then data[RecordSize..] else []);
  }

  /** Writing (0,0) is indistinguishable from a zero-filled file: it reads back as the start. */
  lemma WriteZeroThenRead(data: seq<Byte>)
    ensures ReadRecord(WriteRecord(data, ZeroPair)) == Sentinel
  {
    DecodeEncodeRecord(ZeroPair, if |data| > RecordSize then data[RecordSize..] else []);
  }

  /** A file that was read and written back unchanged reads the same again. */
  lemma ReadIsStable(data: seq<Byte>)
    ensures ReadRecord(WriteRecord(data, ReadRecord(data))) == ReadRecord(data)
  {
    WriteThenRead(data, ReadRecord(data));
  }

  lemma {:induction false} ZerosBigEndian(len: nat)
    ensures ToBigEndian(0, len) == seq(len, _ => 0)
  {
    if len > 0 {
      ZerosBigEndian(len - 1);
    }
  }

  lemma {:induction false} OnesBigEndian(len: nat)
    ensures ToBigEndian(Pow256(len) - 1, len) == seq(len, _ => 255)
  {
    if len > 0 {
      assert (Pow256(len) - 1) / 256 == Pow256(len - 1) - 1;
      OnesBigEndian(len - 1);
    }
  }

  /** The byte layout of the start sentinel (-1,0) and of the first pair (0,1). */
  lemma SentinelBytes()
    ensures EncodeRecord(Sentinel) == seq(Int64Size, _ => 255) + seq(Int64Size, _ => 0)
    ensures EncodeRecord(Pair(0, 1)) == seq(RecordSize - 1, _ => 0) + [1]
  {
    Pow256At8();
    OnesBigEndian(Int64Size);
    ZerosBigEndian(Int64Size);
    ZerosBigEndian(Int64Size - 1);
  }
}

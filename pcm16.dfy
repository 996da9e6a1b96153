/** Signed 16-bit samples stored little-endian in byte buffers, the layout
    that Node's Buffer.writeInt16LE and Buffer.readInt16LE use. */
module Pcm16 {

  /** One element of a Node Buffer. */
  newtype byte = x: int | 0 <= x < 0x100

  predicate IsInt16(v: int) {
    -0x8000 <= v < 0x8000
  }

  predicate AllInt16(s: seq<int>) {
    forall i :: 0 <= i < |s| ==> IsInt16(s[i])
  }

  /** The two bytes writeInt16LE stores for v: its two's-complement form, low byte first. */
  function LowByte(v: int): byte {
    ((v % 0x1_0000) % 0x100) as byte
  }

  function HighByte(v: int): byte {
    ((v % 0x1_0000) / 0x100) as byte
  }

  /** The value readInt16LE gives for a low and a high byte: the 16-bit word, sign-extended. */
  function FromBytes(lo: byte, hi: byte): (v: int)
    ensures IsInt16(v)
    ensures v < 0 <==> hi >= 0x80
  {
    var u := lo as int + 0x100 * hi as int;
    if u >= 0x8000 then u - 0x1_0000 else u
  }

  /** Writing a 16-bit value and reading it back gives the value. */
  lemma FromBytesOfValue(v: int)
    requires IsInt16(v)
    ensures FromBytes(LowByte(v), HighByte(v)) == v
  {
  }

  /** Reading two bytes and writing the value back gives the bytes. */
  lemma ValueOfBytes(lo: byte, hi: byte)
    ensures LowByte(FromBytes(lo, hi)) == lo && HighByte(FromBytes(lo, hi)) == hi
  {
  }

  function ReadInt16LE(buf: seq<byte>, offset: nat): (v: int)
    requires offset + 2 <= |buf|
    ensures IsInt16(v)
  {
    FromBytes(buf[offset], buf[offset + 1])
  }

  /** buf.writeInt16LE(value, offset); Node throws a RangeError for a value or an
      offset out of range, and no caller here passes one. */
  method WriteInt16LE(buf: array<byte>, value: int, offset: nat)
    requires IsInt16(value)
    requires offset + 2 <= buf.Length
    modifies buf
    ensures buf[..] == old(buf[..])[offset := LowByte(value)][offset + 1 := HighByte(value)]
  {
    buf[offset] := LowByte(value);
    buf[offset + 1] := HighByte(value);
  }

  /** Samples laid out one after another, two bytes each. */
  function Serialize(s: seq<int>): (bytes: seq<byte>)
    ensures |bytes| == 2 * |s|
  {
    seq(2 * |s|, k requires 0 <= k < 2 * |s| =>
      if k % 2 == 0 then LowByte(s[k / 2]) else HighByte(s[k / 2]))
  }

  /** The samples a buffer holds; an odd trailing byte belongs to no sample. */
  function Deserialize(bytes: seq<byte>): (s: seq<int>)
    ensures |s| == |bytes| / 2
    ensures AllInt16(s)
  {
    seq(|bytes| / 2, i requires 0 <= i < |bytes| / 2 => ReadInt16LE(bytes, 2 * i))
  }

  /** The first n samples of s sit in a, two bytes each, as Serialize lays them out. */
  ghost predicate SerializedPrefix(a: seq<byte>, s: seq<int>, n: nat)
    requires 2 * n <= |a| && n <= |s|
  {
    forall k :: 0 <= k < n ==> a[2 * k] == LowByte(s[k]) && a[2 * k + 1] == HighByte(s[k])
  }

  /** Sample i of a serialized prefix, at byte offset 2i, reads back as s[i]. */
  lemma ReadSerializedPrefix(a: seq<byte>, s: seq<int>, n: nat, i: nat, offset: nat)
    requires 2 * n <= |a| && n <= |s| && SerializedPrefix(a, s, n)
    requires i < n && IsInt16(s[i]) && offset == 2 * i
    ensures ReadInt16LE(a, offset) == s[i]
  {
    assert a[offset] == LowByte(s[i]) && a[offset + 1] == HighByte(s[i]);
    FromBytesOfValue(s[i]);
  }

  /** Writing sample n at byte offset 2n extends a serialized prefix by one sample. */
  lemma SerializedPrefixAfterWrite(before: seq<byte>, after: seq<byte>, s: seq<int>, n: nat,
                                   offset: nat, value: int)
    requires n < |s| && offset == 2 * n && offset + 2 <= |before| && value == s[n]
    requires SerializedPrefix(before, s, n)
    requires after == before[offset := LowByte(value)][offset + 1 := HighByte(value)]
    ensures SerializedPrefix(after, s, n + 1)
  {
  }

  /** A buffer holding all of s, and nothing more, is Serialize(s). */
  lemma SerializedWhole(a: seq<byte>, s: seq<int>)
    requires |a| == 2 * |s| && SerializedPrefix(a, s, |s|)
    ensures a == Serialize(s)
  {
    forall j | 0 <= j < |a|
      ensures a[j] == Serialize(s)[j]
    {
      var k := j / 2;
      assert j == 2 * k || j == 2 * k + 1;
    }
  }

  lemma DeserializeSerialize(s: seq<int>)
    requires AllInt16(s)
    ensures Deserialize(Serialize(s)) == s
  {
    var bytes := Serialize(s);
    forall i | 0 <= i < |s|
      ensures Deserialize(bytes)[i] == s[i]
    {
      assert (2 * i) / 2 == i && (2 * i) % 2 == 0;
      assert (2 * i + 1) / 2 == i && (2 * i + 1) % 2 == 1;
      assert bytes[2 * i] == LowByte(s[i]);
      assert bytes[2 * i + 1] == HighByte(s[i]);
      FromBytesOfValue(s[i]);
    }
    assert |Deserialize(bytes)| == |s|;
  }

  lemma SerializeDeserialize(bytes: seq<byte>)
    ensures Serialize(Deserialize(bytes)) == bytes[..2 * (|bytes| / 2)]
  {
    var s := Deserialize(bytes);
    forall k | 0 <= k < 2 * |s|
      ensures Serialize(s)[k] == bytes[k]
    {
      var i := k / 2;
      ValueOfBytes(bytes[2 * i], bytes[2 * i + 1]);
    }
  }
}

/** Machine words as byte strings, in both byte orders. */
module Words {
  import opened Arithmetic
  import opened Telemetry

  const WORD: int := 0x1_0000_0000_0000_0000

  // ----- little-endian words -----

  function Pow256(count: nat): (p: nat)
    ensures p >= 1
  {
    if count == 0 then 1 else 256 * Pow256(count - 1)
  }

  function LittleEndian(n: nat, count: nat): (bytes: seq<byte>)
    ensures |bytes| == count
  {
    if count == 0 then [] else [n % 256] + LittleEndian(n / 256, count - 1)
  }

  function FromLittleEndian(bytes: seq<byte>): nat {
    if bytes == [] then 0 else bytes[0] + 256 * FromLittleEndian(bytes[1..])
  }

  lemma {:induction false} DecodeEncode(n: nat, count: nat)
    requires n < Pow256(count)
    ensures FromLittleEndian(LittleEndian(n, count)) == n
  {
    if count == 0 {
    } else {
      DecodeEncode(n / 256, count - 1);
      assert LittleEndian(n, count)[1..] == LittleEndian(n / 256, count - 1);
    }
  }

  lemma {:induction false} EncodeDecode(bytes: seq<byte>)
    ensures FromLittleEndian(bytes) < Pow256(|bytes|)
    ensures LittleEndian(FromLittleEndian(bytes), |bytes|) == bytes
  {
    if bytes == [] {
    } else {
      EncodeDecode(bytes[1..]);
      assert bytes == [bytes[0]] + bytes[1..];
    }
  }

  lemma DivideTwice(n: nat, p: nat)
    requires p >= 1
    ensures n / 256 / p == n / (256 * p)
  {
    var q, r := n / (256 * p), n % (256 * p);
    var qp := q * p;
    assert n == q * (256 * p) + r == 256 * qp + r;
    assert n / 256 == qp + r / 256;
    DivModUnique(n / 256, p, q, r / 256);
  }

  /** The least significant byte comes first. */
  lemma {:induction false} LittleEndianByte(n: nat, count: nat, i: nat)
    requires i < count
    ensures LittleEndian(n, count)[i] == n / Pow256(i) % 256
  {
    if i == 0 {
    } else {
      LittleEndianByte(n / 256, count - 1, i - 1);
      DivideTwice(n, Pow256(i - 1));
    }
  }

  // ----- big-endian words -----

  function BigEndian(n: nat, count: nat): (bytes: seq<byte>)
    ensures |bytes| == count
  {
    if count == 0 then [] else BigEndian(n / 256, count - 1) + [n % 256]
  }

  function FromBigEndian(bytes: seq<byte>): nat {
    if bytes == [] then 0 else 256 * FromBigEndian(bytes[..|bytes| - 1]) + bytes[|bytes| - 1]
  }

  lemma {:induction false} BigEndianDecodes(n: nat, count: nat)
    requires n < Pow256(count)
    ensures FromBigEndian(BigEndian(n, count)) == n
  {
    if count == 0 {
    } else {
      BigEndianDecodes(n / 256, count - 1);
      assert BigEndian(n, count)[..count - 1] == BigEndian(n / 256, count - 1);
    }
  }

  lemma {:induction false} BigEndianEncodes(bytes: seq<byte>)
    ensures FromBigEndian(bytes) < Pow256(|bytes|)
    ensures BigEndian(FromBigEndian(bytes), |bytes|) == bytes
  {
    if bytes == [] {
    } else {
      var m := |bytes| - 1;
      BigEndianEncodes(bytes[..m]);
      assert bytes == bytes[..m] + [bytes[m]];
    }
  }

  /** The most significant byte comes first. */
  lemma {:induction false} BigEndianByte(n: nat, count: nat, i: nat)
    requires i < count
    ensures BigEndian(n, count)[count - 1 - i] == n / Pow256(i) % 256
  {
    if i == 0 {
    } else {
      BigEndianByte(n / 256, count - 1, i - 1);
      DivideTwice(n, Pow256(i - 1));
    }
  }
}

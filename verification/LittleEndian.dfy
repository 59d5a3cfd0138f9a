/** Unsigned 64-bit integers as the eight bytes they occupy in memory. */
module LittleEndian {
  import opened SeqOps
  import opened Messages

  function Power256(k: nat): nat { if k == 0 then 1 else 256 * Power256(k - 1) }

  function ToBytes(n: nat, k: nat): (b: Bytes)
    ensures |b| == k
  {
    if k == 0 then [] else [(n % 256) as Byte] + ToBytes(n / 256, k - 1)
  }

  function FromBytes(b: Bytes): nat {
    if b == [] then 0 else b[0] as nat + 256 * FromBytes(b[1..])
  }

  lemma {:induction false} ToFrom(n: nat, k: nat)
    requires n < Power256(k)
    ensures FromBytes(ToBytes(n, k)) == n
    decreases k
  {
    if k > 0 {
      ToFrom(n / 256, k - 1);
      assert ToBytes(n, k)[1..] == ToBytes(n / 256, k - 1);
    }
  }

  lemma {:induction false} FromTo(b: Bytes)
    ensures FromBytes(b) < Power256(|b|) && ToBytes(FromBytes(b), |b|) == b
    decreases |b|
  {
    if b != [] {
      FromTo(b[1..]);
      DivMod(FromBytes(b), 256, FromBytes(b[1..]), b[0] as nat);
      assert b == [b[0]] + b[1..];
    }
  }

  /** The lowest byte comes first: byte `i` is digit `i` to the base 256. */
  lemma {:induction false} ByteAt(n: nat, k: nat, i: nat)
    requires i < k
    ensures Power256(i) > 0 && ToBytes(n, k)[i] as int == n / Power256(i) % 256
    decreases k
  {
    if i > 0 {
      ByteAt(n / 256, k - 1, i - 1);
      DivTwice(n, 256, Power256(i - 1));
    }
  }

  function Bytes8(n: U64): (b: Bytes)
    ensures |b| == 8
  {
    ToBytes(n, 8)
  }

  function Number8(b: Bytes): (n: U64)
    requires |b| == 8
  {
    FromTo(b);
    Power64();
    FromBytes(b)
  }

  lemma Power64()
    ensures Power256(8) == TWO_64
  {
    assert Power256(2) == 0x1_0000;
    assert Power256(4) == 0x1_0000 * Power256(2);
    assert Power256(6) == 0x1_0000 * Power256(4);
  }

  /** The layout is a bijection between 64-bit integers and strings of eight bytes. */
  lemma Inverses(n: U64, b: Bytes)
    requires |b| == 8
    ensures Number8(Bytes8(n)) == n && Bytes8(Number8(b)) == b
  {
    Power64();
    ToFrom(n, 8);
    FromTo(b);
  }
}

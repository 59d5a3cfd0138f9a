/** AES-GCM as its users see it (NIST SP 800-38D, sections 7.1 and 7.2): data is combined with a
    keystream that depends on the key, the IV and the position, and a tag of 16 bytes is
    computed from the key, the IV, the additional data and the ciphertext. Both functions are
    arbitrary, so what is proved holds for every cipher of this shape. */
module Gcm {
  import opened SeqOps
  import opened Messages

  type Iv = b: Bytes | |b| == IV_LEN witness seq(IV_LEN, i => 0)
  type Mac = b: Bytes | |b| == MAC_LEN witness seq(MAC_LEN, i => 0)

  /** Exclusive or of the low `n` bits, bit by bit. */
  function XorBits(a: nat, b: nat, n: nat): (r: nat)
  {
    if n == 0 then 0 else (if a % 2 == b % 2 then 0 else 1) + 2 * XorBits(a / 2, b / 2, n - 1)
  }

  function Power2(n: nat): nat { if n == 0 then 1 else 2 * Power2(n - 1) }

  lemma {:induction false} XorRange(a: nat, b: nat, n: nat)
    ensures XorBits(a, b, n) < Power2(n)
  {
    if n > 0 { XorRange(a / 2, b / 2, n - 1); }
  }

  lemma {:induction false} XorTwice(a: nat, b: nat, n: nat)
    requires a < Power2(n)
    ensures XorBits(XorBits(a, b, n), b, n) == a
  {
    if n > 0 {
      XorTwice(a / 2, b / 2, n - 1);
      var r := XorBits(a, b, n);
      assert r / 2 == XorBits(a / 2, b / 2, n - 1);
    }
  }

  /** Each bit of the result is the sum of the two bits modulo two. */
  lemma {:induction false} XorBit(a: nat, b: nat, n: nat, i: nat)
    requires i < n
    ensures Power2(i) > 0
    ensures XorBits(a, b, n) / Power2(i) % 2 == (a / Power2(i) + b / Power2(i)) % 2
    decreases i
  {
    if i > 0 {
      XorBit(a / 2, b / 2, n - 1, i - 1);
      var r, p := XorBits(a, b, n), Power2(i - 1);
      assert r / 2 == XorBits(a / 2, b / 2, n - 1);
      DivTwice(r, 2, p);
      DivTwice(a, 2, p);
      DivTwice(b, 2, p);
    }
  }

  lemma {:induction false} XorCommutes(a: nat, b: nat, n: nat)
    ensures XorBits(a, b, n) == XorBits(b, a, n)
  {
    if n > 0 { XorCommutes(a / 2, b / 2, n - 1); }
  }

  function Xor(a: Byte, b: Byte): Byte {
    XorRange(a as nat, b as nat, 8);
    assert Power2(4) == 16;
    assert Power2(8) == 256;
    XorBits(a as nat, b as nat, 8) as Byte
  }

  /** Bitwise, for all eight bits of a byte. */
  lemma XorBitwise(a: Byte, b: Byte, i: nat)
    requires i < 8
    ensures Power2(i) > 0
    ensures Xor(a, b) as int / Power2(i) % 2 == (a as int / Power2(i) + b as int / Power2(i)) % 2
  {
    XorBit(a as nat, b as nat, 8, i);
  }

  lemma XorInvolution(a: Byte, b: Byte)
    ensures Xor(Xor(a, b), b) == a
  {
    assert Power2(4) == 16;
    assert Power2(8) == 256;
    XorTwice(a as nat, b as nat, 8);
  }

  /** Different keystream bytes give different results; only zero leaves a byte as it is. */
  lemma XorCancels(a: Byte, b: Byte, c: Byte)
    ensures Xor(a, b) == Xor(a, c) <==> b == c
    ensures Xor(a, b) == a <==> b == 0
  {
    XorCommutes(a as nat, b as nat, 8);
    XorCommutes(a as nat, c as nat, 8);
    XorCommutes(a as nat, 0, 8);
    XorInvolution(b, a);
    XorInvolution(c, a);
    XorInvolution(0, a);
    XorInvolution(a, 0);
    XorZero(a as nat, 8);
  }

  lemma {:induction false} XorZero(a: nat, n: nat)
    requires a < Power2(n)
    ensures XorBits(a, 0, n) == a
  {
    if n > 0 { XorZero(a / 2, n - 1); }
  }

  /** The cipher under one key. */
  datatype Cipher = Cipher(keystream: (Iv, nat) -> Byte, tag: (Iv, Bytes, Bytes) -> Mac) {

    /** Encryption and decryption of data that starts at position `pos` of the keystream. */
    function Crypt(iv: Iv, pos: nat, data: Bytes): (r: Bytes)
      ensures |r| == |data|
    {
      seq(|data|, i requires 0 <= i < |data| => Xor(data[i], keystream(iv, pos + i)))
    }

    /** Byte `i` is combined with the keystream byte of its own position, and stays the same only
        if that is zero. */
    lemma CryptAt(iv: Iv, pos: nat, data: Bytes, i: nat)
      requires i < |data|
      ensures Crypt(iv, pos, data)[i] == Xor(data[i], keystream(iv, pos + i))
      ensures Crypt(iv, pos, data)[i] != data[i] <==> keystream(iv, pos + i) != 0
    {
      XorCancels(data[i], keystream(iv, pos + i), 0);
    }

    lemma CryptTwice(iv: Iv, pos: nat, data: Bytes)
      ensures Crypt(iv, pos, Crypt(iv, pos, data)) == data
    {
      forall i | 0 <= i < |data| ensures Crypt(iv, pos, Crypt(iv, pos, data))[i] == data[i] {
        XorInvolution(data[i], keystream(iv, pos + i));
      }
    }

    /** Splitting the data does not matter as long as the position is carried on. */
    lemma CryptConcat(iv: Iv, pos: nat, a: Bytes, b: Bytes)
      ensures Crypt(iv, pos, a + b) == Crypt(iv, pos, a) + Crypt(iv, pos + |a|, b)
    {
    }
  }

  /** A buffer after `data` was written to it at `at`. */
  function Splice(buffer: Bytes, at: nat, data: Bytes): (r: Bytes)
    requires at + |data| <= |buffer|
    ensures |r| == |buffer| && r[at..at + |data|] == data
  {
    buffer[..at] + data + buffer[at + |data|..]
  }

  /** What a write leaves at each place: the data, and around it what was there. */
  lemma SpliceAt(buffer: Bytes, at: nat, data: Bytes, i: nat)
    requires at + |data| <= |buffer|
    ensures i < |data| ==> Splice(buffer, at, data)[at + i] == data[i]
    ensures i < at ==> Splice(buffer, at, data)[i] == buffer[i]
    ensures at + |data| <= i < |buffer| ==> Splice(buffer, at, data)[i] == buffer[i]
  {
  }

  /** Writing two pieces one after the other writes them both. */
  lemma SpliceMore(buffer: Bytes, at: nat, a: Bytes, b: Bytes)
    requires at + |a| + |b| <= |buffer|
    ensures Splice(Splice(buffer, at, a), at + |a|, b) == Splice(buffer, at, a + b)
  {
  }

  lemma SpliceNothing(buffer: Bytes, at: nat)
    requires at <= |buffer|
    ensures Splice(buffer, at, []) == buffer
  {
  }

  lemma WholeBuffer(buffer: Bytes, data: Bytes)
    requires |buffer| == |data|
    ensures Splice(buffer, 0, data) == data
  {
  }

  method Copy(data: Bytes, out: array<Byte>, at: nat)
    requires at + |data| <= out.Length
    modifies out
    ensures out[..] == Splice(old(out[..]), at, data)
  {
    forall i | 0 <= i < |data| {
      out[at + i] := data[i];
    }
  }

  const INT32_MAX: int := 0x7FFF_FFFF

  /** An OpenSSL cipher context between initialisation and finalisation. */
  class CipherCtx {
    const cipher: Cipher
    const iv: Iv
    const encrypting: bool
    var aad: Bytes
    var input: Bytes // all data passed in so far; its length is the position in the keystream

    constructor (cipher: Cipher, iv: Iv, encrypting: bool)
      ensures this.cipher == cipher && this.iv == iv && this.encrypting == encrypting
      ensures aad == [] && input == []
    {
      this.cipher, this.iv, this.encrypting := cipher, iv, encrypting;
      aad, input := [], [];
    }

    method AddAad(data: Bytes)
      modifies this`aad
      ensures aad == old(aad) + data
    {
      aad := aad + data;
    }

    /** EVP_CipherUpdate, which takes its length as a 32-bit `int` and consumes all of it. */
    method Update(data: Bytes, out: array<Byte>, at: nat) returns (processed: int)
      requires |data| <= 0x7FFF_FFFF && at + |data| <= out.Length
      modifies this`input, out
      ensures processed == |data|
      ensures input == old(input) + data
      ensures out[..] == Splice(old(out[..]), at, cipher.Crypt(iv, |old(input)|, data))
    {
      var result := cipher.Crypt(iv, |input|, data);
      forall i | 0 <= i < |data| {
        out[at + i] := result[i];
      }
      input := input + data;
      processed := |data|;
    }

    function Ciphertext(): Bytes
      reads this
    {
      if encrypting then cipher.Crypt(iv, 0, input) else input
    }

    method Tag() returns (tag: Mac)
      ensures tag == cipher.tag(iv, aad, Ciphertext())
    {
      tag := cipher.tag(iv, aad, Ciphertext());
    }
  }

  /** Each byte of the result is that of the data combined with the keystream byte of its own
      position, and so differs from it exactly where that is not zero. */
  ghost predicate Combined(cipher: Cipher, iv: Iv, pos: nat, data: Bytes, result: Bytes) {
    && |result| == |data|
    && forall i | 0 <= i < |data| ::
         && result[i] == Xor(data[i], cipher.keystream(iv, pos + i))
         && (result[i] != data[i] <==> cipher.keystream(iv, pos + i) != 0)
  }

  lemma CryptCombines(cipher: Cipher, iv: Iv, pos: nat, data: Bytes)
    ensures Combined(cipher, iv, pos, data, cipher.Crypt(iv, pos, data))
  {
    hide Xor, Cipher.Crypt;
    forall i: nat | i < |data|
      ensures var b := cipher.Crypt(iv, pos, data)[i];
              b == Xor(data[i], cipher.keystream(iv, pos + i)) && (b != data[i] <==> cipher.keystream(iv, pos + i) != 0)
    {
      cipher.CryptAt(iv, pos, data, i);
    }
  }

  /** The chunk loop: any length is processed, in pieces an `int` can hold, and the result is
      that of one pass over the whole input from the context's position. */
  method CipherUpdate(ctx: CipherCtx, data: Bytes, out: array<Byte>, at: nat) returns (ret: int)
    requires at + |data| <= out.Length
    modifies ctx`input, out
    ensures ret == 0
    ensures ctx.input == old(ctx.input) + data
    ensures out[..] == Splice(old(out[..]), at, ctx.cipher.Crypt(ctx.iv, |old(ctx.input)|, data))
    ensures Combined(ctx.cipher, ctx.iv, |old(ctx.input)|, data, out[at..at + |data|])
  {
    ghost var before, seen := out[..], ctx.input;
    ChunkNone(ctx.cipher, ctx.iv, data, before, at, seen);
    hide Cipher.Crypt, Splice, Progress, Combined;
    var total: nat := 0;
    while total < |data|
      invariant total <= |data|
      invariant (out[..], ctx.input) == Progress(ctx.cipher, ctx.iv, data, before, at, seen, total)
    {
      var processed := UpdateChunk(ctx, data, out, at, total, before, seen);
      if processed < 0 { return -1; }
      total := total + processed;
    }
    if total != |data| { return -1; }
    ChunkAll(ctx.cipher, ctx.iv, data, before, at, seen);
    CryptCombines(ctx.cipher, ctx.iv, |seen|, data);
    assert out[at..at + |data|] == out[..][at..at + |data|];
    ret := 0;
  }

  /** The next piece, as long as an `int` allows. */
  method UpdateChunk(ctx: CipherCtx, data: Bytes, out: array<Byte>, at: nat, total: nat, ghost before: Bytes, ghost seen: Bytes)
    returns (processed: int)
    requires at + |data| <= out.Length == |before| && total < |data|
    requires (out[..], ctx.input) == Progress(ctx.cipher, ctx.iv, data, before, at, seen, total)
    modifies ctx`input, out
    ensures 0 < processed <= |data| - total
    ensures (out[..], ctx.input) == Progress(ctx.cipher, ctx.iv, data, before, at, seen, total + processed)
  {
    var toProcess := if INT32_MAX < |data| - total then INT32_MAX else |data| - total;
    ChunkStep(ctx.cipher, ctx.iv, data, before, at, seen, total, toProcess);
    hide Cipher.Crypt, Splice, Progress;
    processed := ctx.Update(data[total..total + toProcess], out, at + total);
  }

  /** Output buffer and input of the context after `n` bytes. */
  ghost function Progress(cipher: Cipher, iv: Iv, data: Bytes, before: Bytes, at: nat, seen: Bytes, n: nat): (Bytes, Bytes)
    requires at + |data| <= |before| && n <= |data|
  {
    (Splice(before, at, cipher.Crypt(iv, |seen|, data[..n])), seen + data[..n])
  }

  lemma ChunkNone(cipher: Cipher, iv: Iv, data: Bytes, before: Bytes, at: nat, seen: Bytes)
    requires at + |data| <= |before|
    ensures Progress(cipher, iv, data, before, at, seen, 0) == (before, seen)
  {
    SpliceNothing(before, at);
    assert data[..0] == [] && seen + [] == seen && cipher.Crypt(iv, |seen|, []) == [];
  }

  lemma ChunkAll(cipher: Cipher, iv: Iv, data: Bytes, before: Bytes, at: nat, seen: Bytes)
    requires at + |data| <= |before|
    ensures Progress(cipher, iv, data, before, at, seen, |data|) ==
            (Splice(before, at, cipher.Crypt(iv, |seen|, data)), seen + data)
  {
    assert data[..|data|] == data;
  }

  lemma ChunkStep(cipher: Cipher, iv: Iv, data: Bytes, before: Bytes, at: nat, seen: Bytes, total: nat, len: nat)
    requires at + |data| <= |before| && total + len <= |data|
    ensures var (buffer, input) := Progress(cipher, iv, data, before, at, seen, total);
            && |buffer| == |before|
            && Progress(cipher, iv, data, before, at, seen, total + len) ==
               (Splice(buffer, at + total, cipher.Crypt(iv, |input|, data[total..total + len])), input + data[total..total + len])
  {
    hide Cipher.Crypt, Splice;
    assert data[..total] + data[total..total + len] == data[..total + len];
    assert (seen + data[..total]) + data[total..total + len] == seen + data[..total + len];
    cipher.CryptConcat(iv, |seen|, data[..total], data[total..total + len]);
    SpliceMore(before, at, cipher.Crypt(iv, |seen|, data[..total]), cipher.Crypt(iv, |seen| + total, data[total..total + len]));
  }
}

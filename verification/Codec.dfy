/** Encryption and parsing of messages, in `client_server_common.cpp`, for the encrypted and
    the unencrypted build. */
module Codec {
  import opened SeqOps
  import opened Messages
  import opened LittleEndian
  import opened Gcm

  // ---- layout of a message -----------------------------------------------------------------

  /** A message whose lengths fit the machine's sizes. */
  type Sized = m: Message | |m.key| + |m.value| < TWO_64 / 2 witness Message(SeqOp(0, 0, 0), [], [])

  function HeaderBytes(m: Sized): (b: Bytes)
    ensures |b| == HEADER_LEN
  {
    Bytes8(Pack(m.hdr)) + Bytes8(|m.key|)
  }

  function Text(m: Sized): Bytes { HeaderBytes(m) + m.key + m.value }

  /** Reading header, key and value back; none if the key length exceeds what is there. */
  function Parse(text: Bytes): Option<Message>
    requires |text| >= HEADER_LEN
  {
    var keyLen := Number8(text[8..16]);
    if keyLen > |text| - HEADER_LEN then None
    else Some(Message(Unpack(Number8(text[..8])), text[16..16 + keyLen], text[16 + keyLen..]))
  }

  lemma ParseText(m: Sized)
    ensures Parse(Text(m)) == Some(m)
  {
    hide Number8, Bytes8, Pack, Unpack;
    var text := Text(m);
    assert text[..8] == Bytes8(Pack(m.hdr)) && text[8..16] == Bytes8(|m.key|);
    Inverses(Pack(m.hdr), text[..8]);
    Inverses(|m.key|, text[8..16]);
    PackUnpack(m.hdr, 0);
    assert text[16..16 + |m.key|] == m.key && text[16 + |m.key|..] == m.value;
  }

  lemma TextParse(text: Bytes)
    requires HEADER_LEN <= |text| < TWO_64 / 2 && Parse(text).Some?
    ensures var m := Parse(text).value;
            |m.key| + |m.value| == |text| - HEADER_LEN && Text(m) == text
  {
    var m := Parse(text).value;
    Inverses(0, text[..8]);
    Inverses(0, text[8..16]);
    PackUnpack(m.hdr, Number8(text[..8]));
    assert text == text[..8] + text[8..16] + text[16..16 + |m.key|] + text[16 + |m.key|..];
  }

  // ---- messages as bytes -------------------------------------------------------------------

  function Encode(g: Cipher, iv: Iv, m: Sized): Bytes {
    var ciphertext := g.Crypt(iv, 0, Text(m));
    iv + ciphertext + g.tag(iv, [], ciphertext)
  }

  /** Decryption fails on short input, on a key length that does not fit and on a wrong tag. */
  function Decode(g: Cipher, c: Bytes): Option<Message> {
    if |c| < MIN_MSG_LEN then None else
    var iv, ciphertext, tag := c[..IV_LEN], c[IV_LEN..|c| - MAC_LEN], c[|c| - MAC_LEN..];
    var parsed := Parse(g.Crypt(iv, 0, ciphertext));
    if g.tag(iv, [], ciphertext) != tag then None else parsed
  }

  /** Decryption undoes encryption, whatever the cipher, and the message takes
      `CIPHERTEXT_SIZE` bytes. */
  lemma RoundTrip(g: Cipher, iv: Iv, m: Sized)
    ensures Decode(g, Encode(g, iv, m)) == Some(m)
    ensures |Encode(g, iv, m)| == |m.key| + |m.value| + MIN_MSG_LEN
  {
    var c, ciphertext := Encode(g, iv, m), g.Crypt(iv, 0, Text(m));
    assert c[..IV_LEN] == iv && c[IV_LEN..|c| - MAC_LEN] == ciphertext;
    assert c[|c| - MAC_LEN..] == g.tag(iv, [], ciphertext);
    g.CryptTwice(iv, 0, Text(m));
    ParseText(m);
  }

  /** What decrypts has the lengths its size says, and is the encryption of what it decrypts to. */
  lemma Inverse(g: Cipher, c: Bytes)
    requires |c| < TWO_64 / 2 && Decode(g, c).Some?
    ensures var m := Decode(g, c).value;
            && |m.key| + |m.value| == |c| - MIN_MSG_LEN
            && Encode(g, c[..IV_LEN], m) == c
  {
    hide Parse, Text, Cipher.Crypt;
    var iv, ciphertext := c[..IV_LEN], c[IV_LEN..|c| - MAC_LEN];
    var text := g.Crypt(iv, 0, ciphertext);
    TextParse(text);
    g.CryptTwice(iv, 0, ciphertext);
    assert c == iv + ciphertext + c[|c| - MAC_LEN..];
  }

  /** The layout of the plaintext: number, key length, key, value. */
  lemma TextLayout(m: Sized)
    ensures |Text(m)| == 16 + |m.key| + |m.value|
    ensures Number8(Text(m)[..8]) == Pack(m.hdr) && Number8(Text(m)[8..16]) == |m.key|
    ensures Text(m)[16..16 + |m.key|] == m.key && Text(m)[16 + |m.key|..] == m.value
  {
    hide Number8, Bytes8, Pack;
    var text := Text(m);
    assert text[..8] == Bytes8(Pack(m.hdr)) && text[8..16] == Bytes8(|m.key|);
    Inverses(Pack(m.hdr), text[..8]);
    Inverses(|m.key|, text[8..16]);
  }

  /** The layout of a message: 12 bytes of IV, the plaintext combined with the keystream from its
      start, and 16 bytes of tag over all of the ciphertext. */
  lemma EncodeLayout(g: Cipher, iv: Iv, m: Sized)
    ensures var c := Encode(g, iv, m);
            && |c| == 44 + |m.key| + |m.value| && c[..12] == iv
            && Combined(g, iv, 0, Text(m), c[12..|c| - 16])
            && c[|c| - 16..] == g.tag(iv, [], c[12..|c| - 16])
  {
    var c, ciphertext := Encode(g, iv, m), g.Crypt(iv, 0, Text(m));
    CryptCombines(g, iv, 0, Text(m));
    hide Combined;
    assert c[12..|c| - 16] == ciphertext && c[|c| - 16..] == g.tag(iv, [], ciphertext);
  }

  /** Exactly what decrypts: no fewer than 44 bytes, with the tag of the whole ciphertext and a
      key length that fits. */
  lemma DecodesExactly(g: Cipher, c: Bytes)
    ensures Decode(g, c).Some? <==>
            && |c| >= 44
            && g.tag(c[..12], [], c[12..|c| - 16]) == c[|c| - 16..]
            && Number8(g.Crypt(c[..12], 0, c[12..|c| - 16])[8..16]) <= |c| - 44
  {
    hide Number8, Cipher.Crypt;
  }

  /** A message changed behind its IV does not decrypt under its old tag, unless the cipher's tag
      function collides on the two. */
  lemma TamperedFails(g: Cipher, c: Bytes, c': Bytes)
    requires Decode(g, c).Some? && |c'| >= 44 && c'[..12] == c[..12] && c'[|c'| - 16..] == c[|c| - 16..]
    requires g.tag(c[..12], [], c'[12..|c'| - 16]) != g.tag(c[..12], [], c[12..|c| - 16])
    ensures Decode(g, c') == None
  {
    DecodesExactly(g, c);
    DecodesExactly(g, c');
  }

  /** The build without encryption: parsing succeeds exactly when the key length fits, and is
      the inverse of writing in both directions. */
  function DecodePlain(c: Bytes): Option<Message> {
    if |c| < HEADER_LEN then None else Parse(c)
  }

  lemma PlainRoundTrip(m: Sized, c: Bytes)
    requires |c| < TWO_64 / 2
    ensures DecodePlain(Text(m)) == Some(m)
    ensures DecodePlain(c).Some? <==> |c| >= HEADER_LEN && Number8(c[8..16]) <= |c| - HEADER_LEN
    ensures DecodePlain(c).Some? ==>
              var p := DecodePlain(c).value;
              |p.key| + |p.value| == |c| - HEADER_LEN && Text(p) == c
  {
    ParseText(m);
    if DecodePlain(c).Some? { TextParse(c); }
  }

  // ---- initialisation vectors --------------------------------------------------------------

  function Counter(iv: Iv): U64 { Number8(iv[..8]) }

  /** The IV of the next message: random while the counter is zero, then counted up. */
  function NextIv(iv: Iv, random: Iv): Iv {
    var seed := if Counter(iv) == 0 then random else iv;
    Bytes8((Counter(seed) + 1) % TWO_64) + seed[8..]
  }

  function IvAfter(iv: Iv, random: Iv, n: nat): Iv { if n == 0 then iv else NextIv(IvAfter(iv, random, n - 1), random) }

  lemma {:induction false} CountsUp(iv: Iv, random: Iv, n: nat)
    requires 0 < Counter(iv) && Counter(iv) + n <= TWO_64
    ensures Counter(IvAfter(iv, random, n)) == (Counter(iv) + n) % TWO_64
    ensures IvAfter(iv, random, n)[8..] == iv[8..]
  {
    hide Number8, Bytes8;
    if n > 0 {
      CountsUp(iv, random, n - 1);
      var before := IvAfter(iv, random, n - 1);
      Inverses((Counter(before) + 1) % TWO_64, before[..8]);
      assert NextIv(before, random)[..8] == Bytes8((Counter(before) + 1) % TWO_64);
    }
  }

  /** The rules: while the counter is zero the random IV is taken, counter and rest, and from then
      on the counter goes up by one and the rest stays. */
  lemma SeedOrCount(iv: Iv, random: Iv)
    ensures Counter(iv) == 0 ==>
              NextIv(iv, random)[8..] == random[8..] && Counter(NextIv(iv, random)) == (Counter(random) + 1) % TWO_64
    ensures Counter(iv) != 0 ==>
              NextIv(iv, random)[8..] == iv[8..] && Counter(NextIv(iv, random)) == (Counter(iv) + 1) % TWO_64
  {
    hide Number8, Bytes8;
    var seed := if Counter(iv) == 0 then random else iv;
    var counted: U64 := (Counter(seed) + 1) % TWO_64;
    Inverses(counted, seed[..8]);
    assert NextIv(iv, random)[..8] == Bytes8(counted);
  }

  /** Fresh sources with different random bytes start with different IVs. */
  lemma FreshDiffer(iv: Iv, random: Iv, iv': Iv, random': Iv)
    requires Counter(iv) == 0 && Counter(iv') == 0 && random != random'
    ensures NextIv(iv, random) != NextIv(iv', random')
  {
    SeedOrCount(iv, random);
    SeedOrCount(iv', random');
    hide Counter, NextIv;
    if Counter(random) == Counter(random') && random[8..] == random'[8..] { IvParts(random, random'); }
  }

  lemma IvParts(a: Iv, b: Iv)
    requires Counter(a) == Counter(b) && a[8..] == b[8..]
    ensures a == b
  {
    Inverses(0, a[..8]);
    Inverses(0, b[..8]);
    hide Number8, Bytes8;
    assert a == a[..8] + a[8..] && b == b[..8] + b[8..];
  }

  /** From a fresh source on, too, no IV is used twice until the counter of the random one wraps. */
  lemma FreshDistinct(iv: Iv, random: Iv, i: nat, k: nat)
    requires Counter(iv) == 0 && 0 < i < k && Counter(random) + k <= TWO_64
    ensures IvAfter(iv, random, i) != IvAfter(iv, random, k)
  {
    SeedOrCount(iv, random);
    hide Number8, Counter, NextIv;
    var first := NextIv(iv, random);
    Shifted(iv, random, i);
    Shifted(iv, random, k);
    NoncesDistinct(first, random, i - 1, k - 1);
  }

  lemma {:induction false} Shifted(iv: Iv, random: Iv, n: nat)
    requires n > 0
    ensures IvAfter(iv, random, n) == IvAfter(NextIv(iv, random), random, n - 1)
  {
    hide NextIv;
    if n > 1 { Shifted(iv, random, n - 1); }
  }

  /** From one random IV to the wrap of its counter no IV is used twice, as GCM requires. */
  lemma NoncesDistinct(iv: Iv, random: Iv, i: nat, k: nat)
    requires 0 < Counter(iv) && i < k && Counter(iv) + k <= TWO_64
    ensures IvAfter(iv, random, i) != IvAfter(iv, random, k)
  {
    hide Number8, Counter, IvAfter;
    CountsUp(iv, random, i);
    CountsUp(iv, random, k);
  }

  // ---- the functions as they run -----------------------------------------------------------

  /** The IV all encryptions of a process share. */
  class IvSource {
    var iv: Iv

    constructor ()
      ensures Counter(iv) == 0
    {
      iv := seq(IV_LEN, i => 0);
      new;
      Inverses(0, iv[..8]);
      assert Bytes8(0) == iv[..8];
    }

    method Advance(random: Iv)
      modifies this
      ensures iv == NextIv(old(iv), random)
      ensures iv[8..] == if Number8(old(iv)[..8]) == 0 then random[8..] else old(iv)[8..]
      ensures Number8(iv[..8]) ==
              ((if Number8(old(iv)[..8]) == 0 then Number8(random[..8]) else Number8(old(iv)[..8])) + 1) % TWO_64
    {
      SeedOrCount(iv, random);
      if Number8(iv[..8]) == 0 { iv := random; }
      iv := Bytes8((Number8(iv[..8]) + 1) % TWO_64) + iv[8..];
    }
  }

  /** `encrypt_message`: the message is written to the place the caller points to, or to a new
      buffer of the exact size, and nothing around it changes. */
  method EncryptMessage(g: Cipher, ivs: IvSource, random: Iv, m: Sized, dest: array?<Byte>, at: nat)
    returns (ret: int, ciphertext: array<Byte>)
    requires if dest == null then at == 0 else at + |m.key| + |m.value| + MIN_MSG_LEN <= dest.Length
    modifies ivs, dest
    ensures ret == 0 && ivs.iv == NextIv(old(ivs.iv), random)
    ensures if dest != null then ciphertext == dest else fresh(ciphertext) && ciphertext.Length == |m.key| + |m.value| + MIN_MSG_LEN
    ensures |Encode(g, ivs.iv, m)| == |m.key| + |m.value| + MIN_MSG_LEN && at + |m.key| + |m.value| + MIN_MSG_LEN <= ciphertext.Length
    ensures ciphertext[at..at + |m.key| + |m.value| + MIN_MSG_LEN] == Encode(g, ivs.iv, m)
    ensures dest != null ==> dest[..] == Splice(old(dest[..]), at, Encode(g, ivs.iv, m))
  {
    if dest == null {
      ciphertext := new Byte[|m.key| + |m.value| + MIN_MSG_LEN];
    } else {
      ciphertext := dest;
    }
    ivs.Advance(random);
    RoundTrip(g, ivs.iv, m);
    ghost var before := ciphertext[..];
    hide Encode;
    ret := FillCiphertext(g, ivs.iv, m, ciphertext, at);
    ghost var end := at + |m.key| + |m.value| + MIN_MSG_LEN;
    assert ciphertext[at..end] == Splice(before, at, Encode(g, ivs.iv, m))[at..end];
  }

  /** IV, header, key, value and tag, one behind the other. */
  method FillCiphertext(g: Cipher, iv: Iv, m: Sized, out: array<Byte>, at: nat) returns (ret: int)
    requires at + |m.key| + |m.value| + MIN_MSG_LEN <= out.Length
    modifies out
    ensures ret == 0
    ensures at + |Encode(g, iv, m)| <= out.Length && out[..] == Splice(old(out[..]), at, Encode(g, iv, m))
  {
    ghost var before := out[..];
    EncodeInParts(g, iv, m);
    hide Cipher.Crypt, Splice, Encode, Text, HeaderBytes;
    Copy(iv, out, at);
    var pos := at + IV_LEN;
    var ctx := new CipherCtx(g, iv, true);
    var header := HeaderBytes(m);
    ret := WritePart(ctx, header, out, pos, before, at, iv);
    pos := pos + HEADER_LEN;
    ret := WritePart(ctx, m.key, out, pos, before, at, iv + g.Crypt(iv, 0, header));
    if ret < 0 { return; }
    pos := pos + |m.key|;
    ret := WritePart(ctx, m.value, out, pos, before, at, iv + g.Crypt(iv, 0, header) + g.Crypt(iv, |header|, m.key));
    if ret < 0 { return; }
    pos := pos + |m.value|;
    ghost var written := iv + g.Crypt(iv, 0, header) + g.Crypt(iv, |header|, m.key) + g.Crypt(iv, |header + m.key|, m.value);
    var tag := ctx.Tag();
    Copy(tag, out, pos);
    SpliceMore(before, at, written, tag);
    ret := 0;
  }

  lemma EncodeInParts(g: Cipher, iv: Iv, m: Sized)
    ensures var h := HeaderBytes(m);
            && [] + h + m.key + m.value == Text(m)
            && Encode(g, iv, m) == iv + g.Crypt(iv, 0, h) + g.Crypt(iv, |h|, m.key) + g.Crypt(iv, |h + m.key|, m.value)
                                   + g.tag(iv, [], g.Crypt(iv, 0, Text(m)))
  {
    var h := HeaderBytes(m);
    g.CryptConcat(iv, 0, h, m.key);
    g.CryptConcat(iv, 0, h + m.key, m.value);
  }

  /** Encrypting key or value behind what was written so far; an empty part is skipped. */
  method WritePart(ctx: CipherCtx, data: Bytes, out: array<Byte>, at: nat, ghost before: Bytes, ghost from: nat, ghost written: Bytes)
    returns (ret: int)
    requires at == from + |written| && at + |data| <= out.Length == |before| && out[..] == Splice(before, from, written)
    modifies ctx`input, out
    ensures ret == 0 && ctx.input == old(ctx.input) + data
    ensures out[..] == Splice(before, from, written + ctx.cipher.Crypt(ctx.iv, |old(ctx.input)|, data))
  {
    ghost var result := ctx.cipher.Crypt(ctx.iv, |ctx.input|, data);
    SpliceMore(before, from, written, result);
    ret := 0;
    if |data| > 0 {
      ret := CipherUpdate(ctx, data, out, at);
    } else {
      SpliceNothing(Splice(before, from, written), at);
    }
  }

  /** `allocate_and_decrypt`: into the caller's buffer if there is one. */
  method AllocateAndDecrypt(ctx: CipherCtx, dest: array?<Byte>, data: Bytes) returns (ret: int, payload: array<Byte>)
    requires dest != null ==> |data| <= dest.Length
    modifies ctx`input, dest
    ensures ret == 0 && ctx.input == old(ctx.input) + data
    ensures if dest != null then payload == dest else fresh(payload) && payload.Length == |data|
    ensures |data| <= payload.Length
    ensures payload[..|data|] == ctx.cipher.Crypt(ctx.iv, |old(ctx.input)|, data)
    ensures dest != null ==> dest[|data|..] == old(dest[|data|..])
  {
    if dest == null {
      payload := new Byte[|data|];
    } else {
      payload := dest;
    }
    ret := CipherUpdate(ctx, data, payload, 0);
  }

  /** The bytes a payload pointer leads to; a part of length zero needs no buffer. */
  ghost predicate Holds(buffer: array?<Byte>, data: Bytes)
    reads buffer
  {
    if buffer == null then data == [] else |data| <= buffer.Length && buffer[..|data|] == data
  }

  /** The part of a ciphertext from `from` on, decrypted if it is not empty. */
  method ReadPart(ctx: CipherCtx, dest: array?<Byte>, data: Bytes) returns (ret: int, payload: array?<Byte>)
    requires dest != null ==> |data| <= dest.Length
    modifies ctx`input, dest
    ensures ret == 0 && ctx.input == old(ctx.input) + data
    ensures Holds(payload, ctx.cipher.Crypt(ctx.iv, |old(ctx.input)|, data))
    ensures if dest != null then payload == dest else payload == null || fresh(payload)
    ensures dest != null ==> dest[|data|..] == old(dest[|data|..])
  {
    ret, payload := 0, dest;
    if |data| > 0 {
      ret, payload := AllocateAndDecrypt(ctx, dest, data);
    }
  }

  method ReadHeader(ctx: CipherCtx, data: Bytes) returns (hdr: SeqOp, keyLen: U64)
    requires |data| == HEADER_LEN && ctx.input == []
    modifies ctx`input
    ensures ctx.input == data
    ensures var text := ctx.cipher.Crypt(ctx.iv, 0, data);
            hdr == Unpack(Number8(text[..8])) && keyLen == Number8(text[8..16])
  {
    var header := new Byte[HEADER_LEN];
    var length := ctx.Update(data, header, 0);
    WholeBuffer(header[..], ctx.cipher.Crypt(ctx.iv, 0, data));
    assert header[..8] == header[..][..8] && header[8..16] == header[..][8..16];
    hdr, keyLen := Unpack(Number8(header[..8])), Number8(header[8..16]);
  }

  /** Key and value, split where the header says. */
  method ReadPayload(ctx: CipherCtx, keyLen: nat, body: Bytes, keyDest: array?<Byte>, valueDest: array?<Byte>)
    returns (key: array?<Byte>, value: array?<Byte>)
    requires keyLen <= |body| && (keyDest != null ==> keyDest != valueDest)
    requires keyDest != null ==> |body| <= keyDest.Length
    requires valueDest != null ==> |body| <= valueDest.Length
    modifies ctx`input, keyDest, valueDest
    ensures ctx.input == old(ctx.input) + body
    ensures var text := ctx.cipher.Crypt(ctx.iv, |old(ctx.input)|, body);
            Holds(key, text[..keyLen]) && Holds(value, text[keyLen..])
    ensures (keyDest != null ==> key == keyDest) && (valueDest != null ==> value == valueDest)
    ensures keyDest != null ==> keyDest[keyLen..] == old(keyDest[keyLen..])
    ensures valueDest != null ==> valueDest[|body| - keyLen..] == old(valueDest[|body| - keyLen..])
  {
    PayloadParts(ctx.cipher, ctx.iv, ctx.input, body, keyLen);
    hide Cipher.Crypt;
    var keyPart, valuePart := body[..keyLen], body[keyLen..];
    var ret: int;
    ret, key := ReadPart(ctx, keyDest, keyPart);
    ret, value := ReadPart(ctx, valueDest, valuePart);
  }

  lemma PayloadParts(g: Cipher, iv: Iv, input: Bytes, body: Bytes, keyLen: nat)
    requires keyLen <= |body|
    ensures var a, b := body[..keyLen], body[keyLen..];
            && input + a + b == input + body
            && g.Crypt(iv, |input|, body)[..keyLen] == g.Crypt(iv, |input|, a)
            && g.Crypt(iv, |input|, body)[keyLen..] == g.Crypt(iv, |input + a|, b)
  {
  }

  /** `decrypt_message`: succeeds exactly when decoding does, and then leads to the message it
      yields. A caller's buffer must have room for the payload; it may be overwritten even if
      the tag turns out to be wrong. */
  method DecryptMessage(g: Cipher, c: Bytes, keyDest: array?<Byte>, valueDest: array?<Byte>)
    returns (ret: int, hdr: SeqOp, keyLen: U64, key: array?<Byte>, value: array?<Byte>, valueLen: nat)
    requires |c| < TWO_64 / 2
    requires keyDest != null ==> |c| <= keyDest.Length + MIN_MSG_LEN
    requires valueDest != null ==> |c| <= valueDest.Length + MIN_MSG_LEN
    requires keyDest != null ==> keyDest != valueDest
    modifies keyDest, valueDest
    ensures ret == 0 <==> Decode(g, c).Some?
    ensures ret == 0 ==>
              var m := Decode(g, c).value;
              && hdr == m.hdr && keyLen == |m.key| && valueLen == |m.value|
              && Holds(key, m.key) && Holds(value, m.value)
    ensures (keyDest != null ==> key == keyDest) && (valueDest != null ==> value == valueDest)
    ensures ret != 0 ==> key == keyDest && value == valueDest
    // a caller's buffer is left alone behind its part, and, whatever happens, behind the payload
    ensures ret == 0 && keyDest != null ==> keyDest[keyLen..] == old(keyDest[keyLen..])
    ensures ret == 0 && valueDest != null ==> valueDest[valueLen..] == old(valueDest[valueLen..])
    ensures |c| < 44 && keyDest != null ==> keyDest[..] == old(keyDest[..])
    ensures |c| < 44 && valueDest != null ==> valueDest[..] == old(valueDest[..])
    ensures |c| >= 44 && keyDest != null ==> keyDest[|c| - 44..] == old(keyDest[|c| - 44..])
    ensures |c| >= 44 && valueDest != null ==> valueDest[|c| - 44..] == old(valueDest[|c| - 44..])
  {
    ret, hdr, keyLen, key, value, valueLen := -1, SeqOp(0, 0, 0), 0, keyDest, valueDest, 0;
    if |c| < MIN_MSG_LEN { return; }
    var payloadLen := |c| - MIN_MSG_LEN;
    var ctx := new CipherCtx(g, c[..IV_LEN], false);
    var header, body := c[IV_LEN..IV_LEN + HEADER_LEN], c[IV_LEN + HEADER_LEN..|c| - MAC_LEN];
    DecodeInParts(g, c);
    hide Decode, Number8, Unpack;
    hdr, keyLen := ReadHeader(ctx, header);
    if keyLen > payloadLen { return; }
    var keyBuffer, valueBuffer := ReadPayload(ctx, keyLen, body, keyDest, valueDest);
    var tag := ctx.Tag();
    if tag != c[|c| - MAC_LEN..] { return; }
    ret, key, value, valueLen := 0, keyBuffer, valueBuffer, payloadLen - keyLen;
  }

  /** Decoding header and payload separately. */
  lemma DecodeInParts(g: Cipher, c: Bytes)
    requires MIN_MSG_LEN <= |c|
    ensures var iv, header, body := c[..IV_LEN], c[IV_LEN..IV_LEN + HEADER_LEN], c[IV_LEN + HEADER_LEN..|c| - MAC_LEN];
            var h, b := g.Crypt(iv, 0, header), g.Crypt(iv, HEADER_LEN, body);
            var keyLen := Number8(h[8..16]);
            Decode(g, c) ==
            if keyLen > |b| || g.tag(iv, [], header + body) != c[|c| - MAC_LEN..] then None
            else Some(Message(Unpack(Number8(h[..8])), b[..keyLen], b[keyLen..]))
  {
    var iv, header, body := c[..IV_LEN], c[IV_LEN..IV_LEN + HEADER_LEN], c[IV_LEN + HEADER_LEN..|c| - MAC_LEN];
    var h, b := g.Crypt(iv, 0, header), g.Crypt(iv, HEADER_LEN, body);
    assert header + body == c[IV_LEN..|c| - MAC_LEN];
    g.CryptConcat(iv, 0, header, body);
    assert (h + b)[..8] == h[..8] && (h + b)[8..16] == h[8..16];
    var keyLen := Number8(h[8..16]);
    if keyLen <= |b| {
      assert (h + b)[16..16 + keyLen] == b[..keyLen] && (h + b)[16 + keyLen..] == b[keyLen..];
    }
  }
}

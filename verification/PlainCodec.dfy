/** The build without encryption (`NO_ENCRYPTION`) of `client_server_common.cpp`: a message is
    its header, key and value. */
module PlainCodec {
  import opened SeqOps
  import opened Messages
  import opened LittleEndian
  import opened Gcm
  import opened Codec

  /** Header, key and value, to the front of the caller's buffer or of a new one. */
  method EncryptMessage(m: Sized, dest: array?<Byte>) returns (ret: int, ciphertext: array<Byte>)
    requires dest != null ==> HEADER_LEN + |m.key| + |m.value| <= dest.Length
    modifies dest
    ensures ret == 0
    ensures if dest != null then ciphertext == dest else fresh(ciphertext) && ciphertext.Length == |Text(m)|
    ensures |Text(m)| <= ciphertext.Length && ciphertext[..|Text(m)|] == Text(m)
    ensures dest != null ==> dest[..] == Splice(old(dest[..]), 0, Text(m))
  {
    if dest == null {
      ciphertext := new Byte[HEADER_LEN + |m.key| + |m.value|];
    } else {
      ciphertext := dest;
    }
    ghost var before := ciphertext[..];
    var header := HeaderBytes(m);
    SpliceMore(before, 0, header, m.key);
    SpliceMore(before, 0, header + m.key, m.value);
    SpliceNothing(Splice(before, 0, header), HEADER_LEN);
    SpliceNothing(Splice(before, 0, header + m.key), HEADER_LEN + |m.key|);
    hide HeaderBytes;
    Copy(header, ciphertext, 0);
    var pos := HEADER_LEN;
    if |m.key| > 0 {
      Copy(m.key, ciphertext, pos);
      pos := pos + |m.key|;
    }
    if |m.value| > 0 {
      Copy(m.value, ciphertext, pos);
    }
    assert ciphertext[..] == Splice(before, 0, Text(m));
    assert ciphertext[..|Text(m)|] == ciphertext[..][0..|Text(m)|];
    ret := 0;
  }

  /** `allocate_and_copy`: into the caller's buffer if there is one. */
  method AllocateAndCopy(dest: array?<Byte>, data: Bytes) returns (payload: array<Byte>)
    requires dest != null ==> |data| <= dest.Length
    modifies dest
    ensures Holds(payload, data)
    ensures if dest != null then payload == dest else fresh(payload)
  {
    if dest == null {
      payload := new Byte[|data|];
    } else {
      payload := dest;
    }
    ghost var before := payload[..];
    Copy(data, payload, 0);
    assert payload[..|data|] == Splice(before, 0, data)[0..|data|];
  }

  /** Succeeds exactly when the key length fits. The length of the value is written only for a
      value that is not empty; callers that set it to zero beforehand get the length always. */
  method DecryptMessage(c: Bytes, keyDest: array?<Byte>, valueDest: array?<Byte>, lenBefore: nat)
    returns (ret: int, hdr: SeqOp, keyLen: U64, key: array?<Byte>, value: array?<Byte>, valueLen: nat)
    requires |c| < TWO_64 / 2
    requires keyDest != null ==> |c| <= keyDest.Length + HEADER_LEN
    requires valueDest != null ==> |c| <= valueDest.Length + HEADER_LEN
    requires keyDest != null ==> keyDest != valueDest
    modifies keyDest, valueDest
    ensures ret == 0 <==> |c| >= HEADER_LEN && Number8(c[8..16]) <= |c| - HEADER_LEN
    ensures ret == 0 <==> DecodePlain(c).Some?
    ensures ret == 0 ==>
              var m := DecodePlain(c).value;
              && hdr == m.hdr && keyLen == |m.key| && valueLen == (if m.value == [] then lenBefore else |m.value|)
              && Holds(key, m.key) && Holds(value, m.value)
    ensures (keyDest != null ==> key == keyDest) && (valueDest != null ==> value == valueDest)
  {
    ret, hdr, keyLen, key, value, valueLen := -1, SeqOp(0, 0, 0), 0, keyDest, valueDest, lenBefore;
    if |c| < HEADER_LEN { return; }
    hide Number8, Unpack;
    hdr, keyLen := Unpack(Number8(c[..8])), Number8(c[8..16]);
    var rest := c[16..];
    if keyLen > 0 {
      if keyLen > |rest| { return; }
      key := AllocateAndCopy(keyDest, rest[..keyLen]);
      rest := rest[keyLen..];
    }
    assert rest == DecodePlain(c).value.value && c[16..16 + keyLen] == c[16..][..keyLen];
    if |rest| > 0 {
      value := AllocateAndCopy(valueDest, rest);
      valueLen := |rest|;
    }
    ret := 0;
  }
}

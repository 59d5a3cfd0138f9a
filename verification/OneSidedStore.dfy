/** The one-sided store as it runs: a region both sides can reach, the client's transfer buffer
    and the table of key information each side keeps. */
module OneSidedStore {
  import opened SeqOps
  import opened Messages
  import opened LittleEndian
  import opened Gcm
  import opened OneSided

  /** How a remote write ends. A failed one may have written any first part of the block. */
  datatype WriteResult = Written | EncryptionFailed | WriteFailed(landed: nat)

  /** How a remote read ends. An error status that comes with an event other than the end of the
      connection goes unnoticed, and whatever is left in the buffer is decoded. */
  datatype ReadResult = Done | ReadFailed | Unnoticed(left: Bytes)

  ghost predicate Fits(s: Store, k: Bytes, value: Bytes, result: WriteResult) {
    && k in s.infos && s.infos[k].offset + s.blockSize <= |s.region|
    && |value| + MIN_VALUE_SIZE == s.blockSize && (result.WriteFailed? ==> result.landed <= s.blockSize)
  }

  /** The store after a client's put, for each way the write can end. */
  ghost function AfterPut(g: Cipher, s: Store, k: Bytes, value: Bytes, iv: Iv, result: WriteResult): Store
    requires Fits(s, k, value, result)
  {
    match result
    case Written => Put(g, s, k, value, iv, false)
    case EncryptionFailed => s
    case WriteFailed(landed) => FailedPut(s, k, EncodeBlock(g, iv, Bumped(s.infos[k]), value)[..landed])
  }

  lemma AfterPutParts(g: Cipher, s: Store, k: Bytes, value: Bytes, iv: Iv, result: WriteResult)
    requires Fits(s, k, value, result)
    ensures var s', info := AfterPut(g, s, k, value, iv, result), Bumped(s.infos[k]);
            && s'.blockSize == s.blockSize
            && s'.infos == (if result.Written? then s.infos[k := info] else s.infos)
            && s'.region == match result
                            case Written => Splice(s.region, info.offset, EncodeBlock(g, iv, info, value))
                            case EncryptionFailed => s.region
                            case WriteFailed(landed) => Splice(s.region, info.offset, EncodeBlock(g, iv, info, value)[..landed])
  {
  }

  lemma AfterPutPlaced(g: Cipher, s: Store, k: Bytes, value: Bytes, iv: Iv, result: WriteResult)
    requires Placed(s) && Fits(s, k, value, result)
    ensures Placed(AfterPut(g, s, k, value, iv, result))
  {
    match result
    case Written => PutPlaced(g, s, k, value, iv, false);
    case EncryptionFailed =>
    case WriteFailed(landed) => FailedPutRefines(g, s, k, EncodeBlock(g, iv, Bumped(s.infos[k]), value)[..landed]);
  }

  /** The context of a block: key and offset are authenticated with it. */
  method InitCrypt(g: Cipher, iv: Iv, info: Info, encrypting: bool) returns (ctx: CipherCtx)
    ensures fresh(ctx) && ctx.cipher == g && ctx.iv == iv && ctx.encrypting == encrypting && ctx.input == []
    ensures ctx.aad == Aad(info.key, info.offset)
    ensures ctx.aad[..|info.key|] == info.key && ctx.aad[|info.key|..] == Bytes8(info.offset)
  {
    ctx := new CipherCtx(g, iv, encrypting);
    ctx.AddAad(info.key);
    ctx.AddAad(Bytes8(info.offset));
  }

  lemma BlockInParts(g: Cipher, iv: Iv, info: Info, value: Bytes)
    ensures var seqBytes := Bytes8(info.sequenceNumber);
            EncodeBlock(g, iv, info, value) ==
            iv + g.Crypt(iv, 0, seqBytes) + g.Crypt(iv, |seqBytes|, value)
            + g.tag(iv, Aad(info.key, info.offset), g.Crypt(iv, 0, [] + seqBytes + value))
  {
    g.CryptConcat(iv, 0, Bytes8(info.sequenceNumber), value);
    assert [] + Bytes8(info.sequenceNumber) + value == Bytes8(info.sequenceNumber) + value;
  }

  /** IV, number, value and tag, written to the place of the block. */
  method EncryptKeyValueData(g: Cipher, info: Info, value: Bytes, iv: Iv, out: array<Byte>, at: nat) returns (ret: int)
    requires at + MIN_VALUE_SIZE + |value| <= out.Length && |value| <= INT32_MAX
    modifies out
    ensures ret == 0 && out[..] == Splice(old(out[..]), at, EncodeBlock(g, iv, info, value))
  {
    ghost var before := out[..];
    var seqBytes := Bytes8(info.sequenceNumber);
    BlockInParts(g, iv, info, value);
    hide Cipher.Crypt, Splice, EncodeBlock, Bytes8, Aad;
    Copy(iv, out, at);
    var pos := at + IV_LEN;
    var ctx := InitCrypt(g, iv, info, true);
    pos := Append(ctx, seqBytes, out, pos, before, at, iv);
    pos := Append(ctx, value, out, pos, before, at, iv + g.Crypt(iv, 0, seqBytes));
    var tag := ctx.Tag();
    SpliceMore(before, at, iv + g.Crypt(iv, 0, seqBytes) + g.Crypt(iv, |seqBytes|, value), tag);
    Copy(tag, out, pos);
    ret := 0;
  }

  /** One EVP_EncryptUpdate behind what was written of the block so far. */
  method Append(ctx: CipherCtx, data: Bytes, out: array<Byte>, pos: nat, ghost before: Bytes, ghost at: nat, ghost written: Bytes)
    returns (next: nat)
    requires |data| <= INT32_MAX && pos == at + |written| && pos + |data| <= out.Length == |before|
    requires out[..] == Splice(before, at, written)
    modifies ctx`input, out
    ensures next == pos + |data| && ctx.input == old(ctx.input) + data
    ensures out[..] == Splice(before, at, written + ctx.cipher.Crypt(ctx.iv, |old(ctx.input)|, data))
  {
    SpliceMore(before, at, written, ctx.cipher.Crypt(ctx.iv, |ctx.input|, data));
    hide Cipher.Crypt, Splice;
    var length := ctx.Update(data, out, pos);
    next := pos + length;
  }

  /** A value is returned exactly when the block decodes, in the caller's buffer if there is
      one; that buffer may be overwritten even if the block turns out to be wrong. */
  method DecryptKeyValueData(g: Cipher, block: Bytes, info: Info, dest: array?<Byte>)
    returns (ret: int, value: array?<Byte>)
    requires |block| > MIN_VALUE_SIZE && |block| - MIN_VALUE_SIZE <= INT32_MAX
    requires dest != null ==> |block| - MIN_VALUE_SIZE <= dest.Length
    modifies dest
    ensures ret == 0 <==> DecodeBlock(g, info, block).Some?
    ensures ret == 0 ==>
              var v := DecodeBlock(g, info, block).value;
              value != null && |v| <= value.Length && value[..|v|] == v && (dest != null ==> value == dest)
    ensures ret != 0 ==> value == null
    ensures dest != null ==> dest[|block| - MIN_VALUE_SIZE..] == old(dest[|block| - MIN_VALUE_SIZE..])
  {
    var iv: Iv := block[..IV_LEN];
    var valueSize := |block| - MIN_VALUE_SIZE;
    var number, body := block[IV_LEN..IV_LEN + SEQ_SIZE], block[IV_LEN + SEQ_SIZE..|block| - MAC_LEN];
    DecodeInParts(g, info, block);
    hide DecodeBlock, Bytes8, Number8;
    var ctx := InitCrypt(g, iv, info, false);
    var seqBuffer := new Byte[SEQ_SIZE];
    WholeBuffer(seqBuffer[..], g.Crypt(iv, 0, number));
    var length := ctx.Update(number, seqBuffer, 0);
    var found := Number8(seqBuffer[..]);
    var buffer: array<Byte>;
    if dest == null { buffer := new Byte[valueSize]; } else { buffer := dest; }
    length := ctx.Update(body, buffer, 0);
    assert buffer[..valueSize] == buffer[..][0..0 + valueSize];
    var tag := ctx.Tag();
    if tag != block[|block| - MAC_LEN..] { return -1, null; }
    if info.sequenceNumber != found { return -1, null; }
    return 0, buffer;
  }

  lemma DecodeInParts(g: Cipher, info: Info, block: Bytes)
    requires |block| >= MIN_VALUE_SIZE
    ensures var iv, number, body := block[..IV_LEN], block[IV_LEN..IV_LEN + SEQ_SIZE], block[IV_LEN + SEQ_SIZE..|block| - MAC_LEN];
            DecodeBlock(g, info, block) ==
            if g.tag(iv, Aad(info.key, info.offset), [] + number + body) != block[|block| - MAC_LEN..] then None
            else if Number8(g.Crypt(iv, 0, number)) != info.sequenceNumber then None
            else Some(g.Crypt(iv, SEQ_SIZE, body))
  {
    var iv, number, body := block[..IV_LEN], block[IV_LEN..IV_LEN + SEQ_SIZE], block[IV_LEN + SEQ_SIZE..|block| - MAC_LEN];
    assert [] + number + body == block[IV_LEN..|block| - MAC_LEN];
    assert number + body == block[IV_LEN..|block| - MAC_LEN];
    g.CryptConcat(iv, 0, number, body);
    var text := g.Crypt(iv, 0, number) + g.Crypt(iv, SEQ_SIZE, body);
    assert text[..SEQ_SIZE] == g.Crypt(iv, 0, number) && text[SEQ_SIZE..] == g.Crypt(iv, SEQ_SIZE, body);
  }

  /** One side of the store: the region both sides reach, a transfer buffer and this side's table. */
  class Endpoint {
    const g: Cipher
    const region: array<Byte>
    const localBuf: array<Byte>
    var infos: map<Bytes, Info>

    ghost predicate Valid()
      reads this, region
    {
      region != localBuf && Placed(State()) && localBuf.Length - MIN_VALUE_SIZE <= INT32_MAX
    }

    ghost function State(): Store
      reads this, region
    {
      Store(region[..], infos, localBuf.Length)
    }

    constructor (g: Cipher, region: array<Byte>, localBuf: array<Byte>, infos: map<Bytes, Info>)
      requires region != localBuf && Placed(Store(region[..], infos, localBuf.Length))
      requires localBuf.Length - MIN_VALUE_SIZE <= INT32_MAX
      ensures Valid() && State() == Store(region[..], infos, localBuf.Length)
      ensures this.g == g && this.region == region && this.localBuf == localBuf
    {
      this.g, this.region, this.localBuf, this.infos := g, region, localBuf, infos;
    }

    /** `onesided_put` with the remote write: what reaches the region is a first part of the
        encrypted block, all of it on success. */
    method OnesidedPut(info: Info, value: Bytes, iv: Iv, result: WriteResult) returns (ret: int)
      requires region != localBuf && localBuf.Length - MIN_VALUE_SIZE <= INT32_MAX
      requires |value| + MIN_VALUE_SIZE == localBuf.Length && info.offset + localBuf.Length <= region.Length
      requires result.WriteFailed? ==> result.landed <= localBuf.Length
      modifies region, localBuf
      ensures ret == if result.Written? then 0 else -1
      ensures var block := EncodeBlock(g, iv, info, value);
              region[..] == match result
                            case Written => Splice(old(region[..]), info.offset, block)
                            case EncryptionFailed => old(region[..])
                            case WriteFailed(landed) => Splice(old(region[..]), info.offset, block[..landed])
    {
      if result.EncryptionFailed? { return -1; }
      ghost var block := EncodeBlock(g, iv, info, value);
      WholeBuffer(localBuf[..], block);
      hide EncodeBlock, Splice;
      ret := EncryptKeyValueData(g, info, value, iv, localBuf, 0);
      if result.Written? {
        Copy(localBuf[..], region, info.offset);
        return 0;
      }
      assert localBuf[..result.landed] == block[..result.landed];
      Copy(localBuf[..result.landed], region, info.offset);
      return -1;
    }

    /** The number is advanced, the block written; on failure the number is given back. */
    method RdmaPut(k: Bytes, value: Bytes, iv: Iv, result: WriteResult) returns (ret: int)
      requires Valid() && Fits(State(), k, value, result)
      modifies this`infos, region, localBuf
      ensures Valid()
      ensures ret == if result.Written? then 0 else -1
      ensures State() == AfterPut(g, old(State()), k, value, iv, result)
    {
      ghost var s := State();
      AfterPutPlaced(g, s, k, value, iv, result);
      hide Placed, EncodeBlock, Splice, AfterPut;
      infos := infos[k := infos[k].(sequenceNumber := (infos[k].sequenceNumber + 1) % TWO_64)];
      assert infos == s.infos[k := Bumped(s.infos[k])];
      ret := OnesidedPut(infos[k], value, iv, result);
      if ret < 0 {
        GiveBack(k, s.infos);
      }
      AfterPutParts(g, s, k, value, iv, result);
    }

    method GiveBack(k: Bytes, ghost before: map<Bytes, Info>)
      requires k in before && infos == before[k := Bumped(before[k])]
      modifies this`infos
      ensures infos == before
    {
      infos := infos[k := infos[k].(sequenceNumber := (infos[k].sequenceNumber + TWO_64 - 1) % TWO_64)];
    }

    /** What a get decodes: the block in the region, or what an unnoticed failure left behind. */
    ghost function Fetched(k: Bytes, read: ReadResult): Bytes
      requires Valid() && k in infos
      reads this, region
    {
      if read.Unnoticed? then read.left else BlockAt(State(), k)
    }

    /** The value of what was fetched, if that verifies under key, offset and number; nothing, if
        the read was seen to fail. */
    method RdmaGet(k: Bytes, dest: array?<Byte>, read: ReadResult) returns (value: array?<Byte>)
      requires Valid() && k in infos && (read.Unnoticed? ==> |read.left| == localBuf.Length)
      requires dest != null ==> dest != region && dest != localBuf && localBuf.Length - MIN_VALUE_SIZE <= dest.Length
      modifies localBuf, dest
      ensures Valid() && State() == old(State())
      ensures value != null <==> !read.ReadFailed? && DecodeBlock(g, infos[k], Fetched(k, read)).Some?
      ensures value != null ==>
                var v := DecodeBlock(g, infos[k], Fetched(k, read)).value;
                |v| <= value.Length && value[..|v|] == v && (dest != null ==> value == dest)
      ensures dest != null ==> dest[localBuf.Length - MIN_VALUE_SIZE..] == old(dest[localBuf.Length - MIN_VALUE_SIZE..])
      ensures read.Done? ==> DecodeBlock(g, infos[k], Fetched(k, read)) == Get(g, State(), k)
    {
      if read.ReadFailed? { return null; }
      var info := infos[k];
      ghost var block := Fetched(k, read);
      var fetched := if read.Unnoticed? then read.left else region[info.offset..info.offset + localBuf.Length];
      assert fetched == block;
      Copy(fetched, localBuf, 0);
      WholeBuffer(old(localBuf[..]), block);
      assert localBuf[..] == block;
      hide DecodeBlock;
      var ret: int;
      ret, value := DecryptKeyValueData(g, localBuf[..], info, dest);
    }

    /** The server encrypts in place and does not advance the number. */
    method ServerPut(k: Bytes, value: Bytes, iv: Iv) returns (ret: int)
      requires Valid() && k in infos && |value| + MIN_VALUE_SIZE == localBuf.Length
      modifies region
      ensures Valid() && ret == 0 && State() == Put(g, old(State()), k, value, iv, true)
    {
      PutPlaced(g, State(), k, value, iv, true);
      ghost var s := State();
      hide EncodeBlock, Splice;
      ret := EncryptKeyValueData(g, infos[k], value, iv, region, infos[k].offset);
      assert infos[k := infos[k]] == infos;
      assert State() == Put(g, s, k, value, iv, true);
    }
  }

  // ---- construction ------------------------------------------------------------------------

  lemma Entries(j: nat, i: nat, n: nat, entry: nat)
    requires j < i <= n
    ensures j * entry + entry <= i * entry <= n * entry
  {
    assert i * entry == (j + 1) * entry + (i - j - 1) * entry;
    assert n * entry == i * entry + (n - i) * entry;
  }

  /** Slice `i` of the plaintext. */
  ghost function Slice(plain: Bytes, i: nat, valueSize: nat): Bytes
    requires i * valueSize + valueSize <= |plain|
  {
    plain[i * valueSize..i * valueSize + valueSize]
  }

  /** The bytes an entry's information leads to. */
  ghost function EntryAt(info: Info, region: Bytes, valueSize: nat): Bytes
    requires info.offset + MIN_VALUE_SIZE + valueSize <= |region|
  {
    region[info.offset..info.offset + MIN_VALUE_SIZE + valueSize]
  }

  /** Entry `i` of the region is the encrypted block of slice `i` of the plaintext. */
  ghost predicate Filled(g: Cipher, iv: Iv, info: Info, region: Bytes, plain: Bytes, i: nat, valueSize: nat) {
    && i * valueSize + valueSize <= |plain|
    && info.offset + MIN_VALUE_SIZE + valueSize <= |region|
    && EntryAt(info, region, valueSize) == EncodeBlock(g, iv, info, Slice(plain, i, valueSize))
  }

  /** It decodes to that slice. */
  ghost predicate Readable(g: Cipher, info: Info, region: Bytes, plain: Bytes, i: nat, valueSize: nat) {
    && i * valueSize + valueSize <= |plain|
    && info.offset + MIN_VALUE_SIZE + valueSize <= |region|
    && DecodeBlock(g, info, EntryAt(info, region, valueSize)) == Some(Slice(plain, i, valueSize))
  }

  lemma FilledReads(g: Cipher, iv: Iv, info: Info, region: Bytes, plain: Bytes, i: nat, valueSize: nat)
    requires Filled(g, iv, info, region, plain, i, valueSize)
    ensures Readable(g, info, region, plain, i, valueSize)
  {
    BlockRoundTrip(g, iv, info, Slice(plain, i, valueSize), info);
    hide EncodeBlock, DecodeBlock;
  }

  /** `setup_kv_store`: refuses a destination that is too small; otherwise every entry, old and
      new, is the block of its slice, and reads back as it through its own information. */
  method SetupKvStore(g: Cipher, ivs: seq<Iv>, dest: array?<Byte>, plain: Bytes, num: nat, valueSize: nat, infos: seq<Info>)
    returns (store: array?<Byte>)
    requires 0 < valueSize <= INT32_MAX && |ivs| == |infos| == num && |plain| == num * valueSize
    requires forall i | 0 <= i < num :: infos[i].offset == i * (MIN_VALUE_SIZE + valueSize)
    modifies dest
    ensures store == null <==> dest != null && dest.Length < num * (MIN_VALUE_SIZE + valueSize)
    ensures store == null ==> dest != null && dest[..] == old(dest[..])
    ensures store != null && dest != null ==>
              store == dest && dest[num * (MIN_VALUE_SIZE + valueSize)..] == old(dest[num * (MIN_VALUE_SIZE + valueSize)..])
    ensures store != null ==> store.Length >= num * (MIN_VALUE_SIZE + valueSize)
    ensures store != null ==> forall i: nat | i < num :: Filled(g, ivs[i], infos[i], store[..], plain, i, valueSize)
    ensures store != null ==> forall i: nat | i < num :: Readable(g, infos[i], store[..], plain, i, valueSize)
  {
    var entry := MIN_VALUE_SIZE + valueSize;
    var size := num * entry;
    var region: array<Byte>;
    if dest == null {
      region := new Byte[size];
    } else {
      if dest.Length < size { return null; }
      region := dest;
    }
    ghost var tail := region[size..];
    hide EncodeBlock, DecodeBlock;
    var i := 0;
    while i < num
      invariant i <= num && region.Length >= size && region[size..] == tail
      invariant forall j: nat | j < i :: Filled(g, ivs[j], infos[j], region[..], plain, j, valueSize)
    {
      Entries(i, i + 1, num, entry);
      Entries(i, i + 1, num, valueSize);
      ghost var before := region[..];
      var value := plain[i * valueSize..i * valueSize + valueSize];
      var ret := EncryptKeyValueData(g, infos[i], value, ivs[i], region, i * entry);
      if ret < 0 { return null; }
      forall j: nat | j < i ensures Filled(g, ivs[j], infos[j], region[..], plain, j, valueSize) {
        Entries(j, i, num, entry);
        EntryKept(g, ivs[j], infos[j], before, infos[i].offset, EncodeBlock(g, ivs[i], infos[i], value), plain, j, valueSize);
      }
      assert region[size..] == Splice(before, i * entry, EncodeBlock(g, ivs[i], infos[i], value))[size..];
      i := i + 1;
    }
    store := region;
    forall i: nat | i < num
      ensures Readable(g, infos[i], store[..], plain, i, valueSize)
    {
      FilledReads(g, ivs[i], infos[i], store[..], plain, i, valueSize);
    }
  }

  lemma EntryKept(g: Cipher, iv: Iv, info: Info, before: Bytes, at: nat, block: Bytes, plain: Bytes, j: nat, valueSize: nat)
    requires Filled(g, iv, info, before, plain, j, valueSize)
    requires at + |block| <= |before| && info.offset + MIN_VALUE_SIZE + valueSize <= at
    ensures Filled(g, iv, info, Splice(before, at, block), plain, j, valueSize)
  {
    hide EncodeBlock;
    assert EntryAt(info, Splice(before, at, block), valueSize) == EntryAt(info, before, valueSize);
  }

  // ---- what a constructed store is ---------------------------------------------------------

  ghost predicate DistinctKeys(infos: seq<Info>) {
    forall i, j | 0 <= i < j < |infos| :: infos[i].key != infos[j].key
  }

  ghost function Table(infos: seq<Info>): (t: map<Bytes, Info>)
    requires DistinctKeys(infos)
    ensures forall i | 0 <= i < |infos| :: infos[i].key in t && t[infos[i].key] == infos[i]
    ensures forall k | k in t :: exists i :: 0 <= i < |infos| && infos[i].key == k
  {
    map i | 0 <= i < |infos| :: infos[i].key := infos[i]
  }

  lemma EntriesApart(infos: seq<Info>, valueSize: nat, i: nat, j: nat)
    requires i < |infos| && j < |infos| && i != j
    requires forall n | 0 <= n < |infos| :: infos[n].offset == n * (MIN_VALUE_SIZE + valueSize)
    ensures var entry := MIN_VALUE_SIZE + valueSize;
            infos[i].offset + entry <= infos[j].offset || infos[j].offset + entry <= infos[i].offset
  {
    if i < j { Entries(i, j, |infos|, MIN_VALUE_SIZE + valueSize); } else { Entries(j, i, |infos|, MIN_VALUE_SIZE + valueSize); }
  }

  /** A store set up over distinct keys has its entries in place and stands for the map from the
      keys to the slices: it is where the runs of `RunRefines` and `RunIsMap` may start. */
  lemma SetupIsStore(g: Cipher, ivs: seq<Iv>, region: Bytes, plain: Bytes, valueSize: nat, infos: seq<Info>)
    requires DistinctKeys(infos) && 0 < valueSize && |ivs| == |infos|
    requires forall i | 0 <= i < |infos| :: infos[i].offset == i * (MIN_VALUE_SIZE + valueSize)
    requires forall i: nat | i < |infos| :: Filled(g, ivs[i], infos[i], region, plain, i, valueSize)
    ensures var s := Store(region, Table(infos), MIN_VALUE_SIZE + valueSize);
            && Placed(s) && View(g, s).Keys == Table(infos).Keys
            && forall i: nat | i < |infos| ::
                 i * valueSize + valueSize <= |plain| && View(g, s)[infos[i].key] == Slice(plain, i, valueSize)
  {
    SetupPlaced(g, ivs, region, plain, valueSize, infos);
    hide Filled, Placed, Get;
    var s := Store(region, Table(infos), MIN_VALUE_SIZE + valueSize);
    forall i: nat | i < |infos|
      ensures i * valueSize + valueSize <= |plain| && infos[i].key in s.infos && Get(g, s, infos[i].key) == Some(Slice(plain, i, valueSize))
    {
      GetSlice(g, ivs[i], s, infos[i], plain, i, valueSize);
    }
    forall k | k in s.infos ensures k in View(g, s) {
      var i: nat :| i < |infos| && infos[i].key == k;
    }
  }

  lemma GetSlice(g: Cipher, iv: Iv, s: Store, info: Info, plain: Bytes, i: nat, valueSize: nat)
    requires Filled(g, iv, info, s.region, plain, i, valueSize) && s.blockSize == MIN_VALUE_SIZE + valueSize
    requires info.key in s.infos && s.infos[info.key] == info
    ensures i * valueSize + valueSize <= |plain| && info.offset + s.blockSize <= |s.region|
    ensures Get(g, s, info.key) == Some(Slice(plain, i, valueSize))
  {
    FilledReads(g, iv, info, s.region, plain, i, valueSize);
    hide Filled, DecodeBlock;
  }

  ghost predicate AllApart(infos: seq<Info>, entry: nat) {
    forall i: nat, j: nat | i < |infos| && j < |infos| && i != j ::
      infos[i].offset + entry <= infos[j].offset || infos[j].offset + entry <= infos[i].offset
  }

  lemma SetupPlaced(g: Cipher, ivs: seq<Iv>, region: Bytes, plain: Bytes, valueSize: nat, infos: seq<Info>)
    requires DistinctKeys(infos) && 0 < valueSize && |ivs| == |infos|
    requires forall i | 0 <= i < |infos| :: infos[i].offset == i * (MIN_VALUE_SIZE + valueSize)
    requires forall i: nat | i < |infos| :: Filled(g, ivs[i], infos[i], region, plain, i, valueSize)
    ensures Placed(Store(region, Table(infos), MIN_VALUE_SIZE + valueSize))
  {
    var entry := MIN_VALUE_SIZE + valueSize;
    forall i: nat, j: nat | i < |infos| && j < |infos| && i != j
      ensures infos[i].offset + entry <= infos[j].offset || infos[j].offset + entry <= infos[i].offset
    {
      EntriesApart(infos, valueSize, i, j);
    }
    forall i: nat | i < |infos| ensures infos[i].offset + entry <= |region| {
      assert Filled(g, ivs[i], infos[i], region, plain, i, valueSize);
    }
    hide Filled;
    TablePlaced(region, infos, entry);
  }

  lemma InTable(infos: seq<Info>, k: Bytes) returns (i: nat)
    requires DistinctKeys(infos) && k in Table(infos)
    ensures i < |infos| && infos[i].key == k && Table(infos)[k] == infos[i]
  {
    i :| 0 <= i < |infos| && infos[i].key == k;
    assert Table(infos)[infos[i].key] == infos[i];
  }

  lemma ApartAt(infos: seq<Info>, entry: nat, j: Bytes, k: Bytes)
    requires DistinctKeys(infos) && AllApart(infos, entry) && j in Table(infos) && k in Table(infos) && j != k
    ensures var t := Table(infos); t[j].offset + entry <= t[k].offset || t[k].offset + entry <= t[j].offset
  {
    hide Table, DistinctKeys;
    var m := InTable(infos, j);
    var n := InTable(infos, k);
  }

  lemma TablePlaced(region: Bytes, infos: seq<Info>, entry: nat)
    requires DistinctKeys(infos) && entry > MIN_VALUE_SIZE && AllApart(infos, entry)
    requires forall i: nat | i < |infos| :: infos[i].offset + entry <= |region|
    ensures Placed(Store(region, Table(infos), entry))
  {
    hide Table, DistinctKeys, AllApart;
    var t := Table(infos);
    forall k | k in t ensures t[k].key == k && t[k].offset + entry <= |region| {
      var i := InTable(infos, k);
    }
    forall j, k | j in t && k in t && j != k
      ensures t[j].offset + entry <= t[k].offset || t[k].offset + entry <= t[j].offset
    {
      ApartAt(infos, entry, j, k);
    }
  }
}

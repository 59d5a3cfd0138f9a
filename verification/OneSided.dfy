/** The one-sided store: fixed-size blocks in a flat region, each bound to its key and offset
    and to the number in a local table, in `client_server_utils.c`, `onesided_client.c` and
    `onesided_server.c`. */
module OneSided {
  import opened SeqOps
  import opened Messages
  import opened LittleEndian
  import opened Gcm

  const SEQ_SIZE: nat := 8
  const MIN_VALUE_SIZE: nat := IV_LEN + SEQ_SIZE + MAC_LEN

  /** What client and server know about one key. */
  datatype Info = Info(sequenceNumber: U64, key: Bytes, offset: U64)

  // ---- blocks ------------------------------------------------------------------------------

  function Aad(key: Bytes, offset: U64): Bytes { key + Bytes8(offset) }

  /** Key and offset together are determined by the additional data, keys of any length. */
  lemma AadInjective(k1: Bytes, o1: U64, k2: Bytes, o2: U64)
    requires Aad(k1, o1) == Aad(k2, o2)
    ensures k1 == k2 && o1 == o2
  {
    var a := Aad(k1, o1);
    assert |k1| == |k2|;
    assert k1 == a[..|k1|] && k2 == a[..|k2|];
    assert Bytes8(o1) == a[|k1|..] && Bytes8(o2) == a[|k2|..];
    Inverses(o1, Bytes8(o1));
    Inverses(o2, Bytes8(o2));
  }

  function EncodeBlock(g: Cipher, iv: Iv, info: Info, value: Bytes): (b: Bytes)
    ensures |b| == MIN_VALUE_SIZE + |value|
  {
    var ciphertext := g.Crypt(iv, 0, Bytes8(info.sequenceNumber) + value);
    iv + ciphertext + g.tag(iv, Aad(info.key, info.offset), ciphertext)
  }

  /** Whether a block's tag is right for a key and offset. */
  predicate Verifies(g: Cipher, aad: Bytes, block: Bytes) {
    && |block| >= MIN_VALUE_SIZE
    && g.tag(block[..IV_LEN], aad, block[IV_LEN..|block| - MAC_LEN]) == block[|block| - MAC_LEN..]
  }

  /** The value of a block, if its tag is right and its number is the expected one. */
  function DecodeBlock(g: Cipher, info: Info, block: Bytes): Option<Bytes> {
    if !Verifies(g, Aad(info.key, info.offset), block) then None else
    var text := g.Crypt(block[..IV_LEN], 0, block[IV_LEN..|block| - MAC_LEN]);
    if Number8(text[..SEQ_SIZE]) != info.sequenceNumber then None else Some(text[SEQ_SIZE..])
  }

  /** Reading a block as the key and offset it was written for yields its value if the number
      is still the one it was written with, and nothing otherwise. */
  lemma BlockRoundTrip(g: Cipher, iv: Iv, written: Info, value: Bytes, info: Info)
    requires info.key == written.key && info.offset == written.offset
    ensures Verifies(g, Aad(info.key, info.offset), EncodeBlock(g, iv, written, value))
    ensures DecodeBlock(g, info, EncodeBlock(g, iv, written, value)) ==
            if info.sequenceNumber == written.sequenceNumber then Some(value) else None
  {
    var text := Bytes8(written.sequenceNumber) + value;
    var ciphertext, b := g.Crypt(iv, 0, text), EncodeBlock(g, iv, written, value);
    assert b[..IV_LEN] == iv && b[IV_LEN..|b| - MAC_LEN] == ciphertext;
    assert b[|b| - MAC_LEN..] == g.tag(iv, Aad(info.key, info.offset), ciphertext);
    g.CryptTwice(iv, 0, text);
    Inverses(written.sequenceNumber, text[..SEQ_SIZE]);
    assert text[..SEQ_SIZE] == Bytes8(written.sequenceNumber) && text[SEQ_SIZE..] == value;
  }

  /** The layout of a block: 12 bytes of IV, number and value combined with the keystream from its
      start, and 16 bytes of tag over key, offset and all of the ciphertext. */
  lemma BlockLayout(g: Cipher, iv: Iv, info: Info, value: Bytes)
    ensures var b := EncodeBlock(g, iv, info, value);
            && |b| == 36 + |value| && b[..12] == iv
            && Combined(g, iv, 0, Bytes8(info.sequenceNumber) + value, b[12..|b| - 16])
            && b[|b| - 16..] == g.tag(iv, info.key + Bytes8(info.offset), b[12..|b| - 16])
  {
    var b, text := EncodeBlock(g, iv, info, value), Bytes8(info.sequenceNumber) + value;
    CryptCombines(g, iv, 0, text);
    hide Combined, Bytes8;
    assert b[12..|b| - 16] == g.Crypt(iv, 0, text);
    assert b[|b| - 16..] == g.tag(iv, info.key + Bytes8(info.offset), b[12..|b| - 16]);
  }

  /** Exactly what a block yields: a value under the tag for key and offset and the number of the
      table. */
  lemma DecodesExactly(g: Cipher, info: Info, b: Bytes, v: Bytes)
    ensures DecodeBlock(g, info, b) == Some(v) <==>
            && |b| >= 36
            && g.tag(b[..12], info.key + Bytes8(info.offset), b[12..|b| - 16]) == b[|b| - 16..]
            && var text := g.Crypt(b[..12], 0, b[12..|b| - 16]); Number8(text[..8]) == info.sequenceNumber && text[8..] == v
  {
    hide Number8, Bytes8, Cipher.Crypt;
  }

  /** A block moved to another place or key is refused, unless the tag function collides on the two
      strings of additional data, which differ. */
  lemma MovedBlockRefused(g: Cipher, iv: Iv, written: Info, value: Bytes, info: Info)
    requires info.key != written.key || info.offset != written.offset
    ensures info.key + Bytes8(info.offset) != written.key + Bytes8(written.offset)
    ensures var b := EncodeBlock(g, iv, written, value);
            var text := b[12..|b| - 16];
            g.tag(iv, info.key + Bytes8(info.offset), text) != g.tag(iv, written.key + Bytes8(written.offset), text) ==>
              DecodeBlock(g, info, b) == None
  {
    if info.key + Bytes8(info.offset) == written.key + Bytes8(written.offset) {
      AadInjective(info.key, info.offset, written.key, written.offset);
    }
    BlockLayout(g, iv, written, value);
    hide EncodeBlock, Bytes8, Combined;
    var b := EncodeBlock(g, iv, written, value);
    if DecodeBlock(g, info, b).Some? { DecodesExactly(g, info, b, DecodeBlock(g, info, b).value); }
  }

  // ---- the store as a map ------------------------------------------------------------------

  /** A region of bytes, and the table one side keeps of the keys placed in it. Client and server
      have a table each, of the same keys and offsets; only their own puts change it. */
  datatype Store = Store(region: Bytes, infos: map<Bytes, Info>, blockSize: nat)

  ghost predicate Placed(s: Store) {
    && s.blockSize > MIN_VALUE_SIZE
    && (forall k | k in s.infos :: s.infos[k].key == k && s.infos[k].offset + s.blockSize <= |s.region|)
    && (forall j, k | j in s.infos && k in s.infos && j != k ::
          s.infos[j].offset + s.blockSize <= s.infos[k].offset || s.infos[k].offset + s.blockSize <= s.infos[j].offset)
  }

  function BlockAt(s: Store, k: Bytes): (b: Bytes)
    requires k in s.infos && s.infos[k].offset + s.blockSize <= |s.region|
    ensures |b| == s.blockSize
  {
    s.region[s.infos[k].offset..s.infos[k].offset + s.blockSize]
  }

  /** rdma_get and server_get. */
  function Get(g: Cipher, s: Store, k: Bytes): Option<Bytes>
    requires k in s.infos && s.infos[k].offset + s.blockSize <= |s.region|
  {
    DecodeBlock(g, s.infos[k], BlockAt(s, k))
  }

  function Bumped(info: Info): Info { info.(sequenceNumber := (info.sequenceNumber + 1) % TWO_64) }

  /** A put by the side that keeps the table: rdma_put, or server_put, which does not advance the
      number. */
  function Put(g: Cipher, s: Store, k: Bytes, value: Bytes, iv: Iv, byServer: bool): Store
    requires k in s.infos && s.infos[k].offset + s.blockSize <= |s.region|
    requires |value| + MIN_VALUE_SIZE == s.blockSize
  {
    var info := if byServer then s.infos[k] else Bumped(s.infos[k]);
    s.(region := Splice(s.region, info.offset, EncodeBlock(g, iv, info, value)), infos := s.infos[k := info])
  }

  /** A put that fails gives its number back; any part of the block may have been written. */
  function FailedPut(s: Store, k: Bytes, landed: Bytes): Store
    requires k in s.infos && s.infos[k].offset + s.blockSize <= |s.region|
    requires |landed| <= s.blockSize
  {
    s.(region := Splice(s.region, s.infos[k].offset, landed))
  }

  /** A put by the other side, under the number its own table holds. */
  function ForeignPut(g: Cipher, s: Store, k: Bytes, value: Bytes, iv: Iv, number: U64): Store
    requires k in s.infos && s.infos[k].offset + s.blockSize <= |s.region|
    requires |value| + MIN_VALUE_SIZE == s.blockSize
  {
    var info := s.infos[k].(sequenceNumber := number);
    s.(region := Splice(s.region, info.offset, EncodeBlock(g, iv, info, value)))
  }

  /** One side's put is the other's foreign put: they leave the same bytes. */
  lemma SidesShareBytes(g: Cipher, mine: Store, other: Store, k: Bytes, value: Bytes, iv: Iv, byServer: bool)
    requires Placed(mine) && k in mine.infos && |value| + MIN_VALUE_SIZE == mine.blockSize
    requires other.region == mine.region && other.blockSize == mine.blockSize && k in other.infos
    requires other.infos[k].key == k && other.infos[k].offset == mine.infos[k].offset
    ensures var mine' := Put(g, mine, k, value, iv, byServer);
            mine'.region == ForeignPut(g, other, k, value, iv, mine'.infos[k].sequenceNumber).region
  {
  }

  /** The map the bytes and the table stand for. */
  ghost function View(g: Cipher, s: Store): map<Bytes, Bytes>
    requires Placed(s)
  {
    map k | k in s.infos && Get(g, s, k).Some? :: Get(g, s, k).value
  }

  lemma OtherBlock(s: Store, k: Bytes, data: Bytes, j: Bytes)
    requires Placed(s) && k in s.infos && j in s.infos && j != k && |data| <= s.blockSize
    ensures Splice(s.region, s.infos[k].offset, data)[s.infos[j].offset..s.infos[j].offset + s.blockSize] == BlockAt(s, j)
  {
  }

  lemma PutPlaced(g: Cipher, s: Store, k: Bytes, value: Bytes, iv: Iv, byServer: bool)
    requires Placed(s) && k in s.infos && |value| + MIN_VALUE_SIZE == s.blockSize
    ensures var s' := Put(g, s, k, value, iv, byServer);
            Placed(s') && s'.infos.Keys == s.infos.Keys && s'.blockSize == s.blockSize
  {
    hide EncodeBlock;
  }

  lemma ReadOwn(g: Cipher, s: Store, k: Bytes, value: Bytes, iv: Iv, byServer: bool)
    requires k in s.infos && s.infos[k].offset + s.blockSize <= |s.region| && |value| + MIN_VALUE_SIZE == s.blockSize
    ensures Get(g, Put(g, s, k, value, iv, byServer), k) == Some(value)
  {
    var info := if byServer then s.infos[k] else Bumped(s.infos[k]);
    BlockRoundTrip(g, iv, info, value, info);
    hide DecodeBlock, EncodeBlock, Splice;
    assert BlockAt(Put(g, s, k, value, iv, byServer), k) == EncodeBlock(g, iv, info, value);
  }

  lemma ReadOther(g: Cipher, s: Store, s': Store, k: Bytes, data: Bytes, j: Bytes)
    requires Placed(s) && k in s.infos && j in s.infos && j != k && |data| <= s.blockSize == s'.blockSize
    requires j in s'.infos && s'.infos[j] == s.infos[j] && s'.region == Splice(s.region, s.infos[k].offset, data)
    ensures Get(g, s', j) == Get(g, s, j)
  {
    hide DecodeBlock;
    OtherBlock(s, k, data, j);
  }

  /** A put changes the map at its own key only, to the value it was given, whichever side puts
      and even when the number wraps. A failed one can at most lose its own key. */
  lemma PutRefines(g: Cipher, s: Store, k: Bytes, value: Bytes, iv: Iv, byServer: bool)
    requires Placed(s) && k in s.infos && |value| + MIN_VALUE_SIZE == s.blockSize
    ensures Placed(Put(g, s, k, value, iv, byServer))
    ensures View(g, Put(g, s, k, value, iv, byServer)) == View(g, s)[k := value]
  {
    PutPlaced(g, s, k, value, iv, byServer);
    forall j | j in s.infos
      ensures Get(g, Put(g, s, k, value, iv, byServer), j) == if j == k then Some(value) else Get(g, s, j)
    {
      if j == k {
        ReadOwn(g, s, k, value, iv, byServer);
      } else {
        var info := if byServer then s.infos[k] else Bumped(s.infos[k]);
        ReadOther(g, s, Put(g, s, k, value, iv, byServer), k, EncodeBlock(g, iv, info, value), j);
      }
    }
    ViewUpdate(g, s, Put(g, s, k, value, iv, byServer), k, value) by { hide Put, Get, Placed; }
  }

  lemma ViewUpdate(g: Cipher, s: Store, s': Store, k: Bytes, value: Bytes)
    requires Placed(s) && Placed(s') && s'.infos.Keys == s.infos.Keys && k in s.infos
    requires forall j | j in s.infos :: Get(g, s', j) == if j == k then Some(value) else Get(g, s, j)
    ensures View(g, s') == View(g, s)[k := value]
  {
    hide Get, BlockAt;
  }

  lemma ViewElsewhere(g: Cipher, s: Store, s': Store, k: Bytes)
    requires Placed(s) && Placed(s') && s'.infos.Keys == s.infos.Keys
    requires forall j | j in s.infos && j != k :: Get(g, s', j) == Get(g, s, j)
    ensures View(g, s') - {k} == View(g, s) - {k}
  {
    hide Get, BlockAt;
  }

  lemma FailedPutRefines(g: Cipher, s: Store, k: Bytes, landed: Bytes)
    requires Placed(s) && k in s.infos && |landed| <= s.blockSize
    ensures Placed(FailedPut(s, k, landed))
    ensures View(g, FailedPut(s, k, landed)) - {k} == View(g, s) - {k}
    ensures landed == [] ==> FailedPut(s, k, landed) == s
  {
    SpliceNothing(s.region, s.infos[k].offset);
    var s' := FailedPut(s, k, landed);
    hide Get, BlockAt, View, Splice;
    forall j | j in s.infos && j != k ensures Get(g, s', j) == Get(g, s, j) {
      ReadOther(g, s, s', k, landed, j);
    }
    ViewElsewhere(g, s, s', k);
  }

  // ---- runs --------------------------------------------------------------------------------

  /** What happens to the region, from one side's view. */
  datatype Op =
    | PutOp(key: Bytes, value: Bytes, iv: Iv, byServer: bool)
    | FailOp(key: Bytes, value: Bytes, iv: Iv, landed: nat) // own put that fails with part of the block written
    | ForeignOp(key: Bytes, value: Bytes, iv: Iv, number: U64)
    | GetOp(key: Bytes)

  ghost predicate Fitting(s: Store, op: Op) {
    && op.key in s.infos
    && (!op.GetOp? ==> |op.value| + MIN_VALUE_SIZE == s.blockSize)
    && (op.FailOp? ==> op.landed <= s.blockSize)
  }

  ghost function Apply(g: Cipher, s: Store, op: Op): Store
    requires Placed(s) && Fitting(s, op)
  {
    match op
    case PutOp(k, v, iv, byServer) => Put(g, s, k, v, iv, byServer)
    case FailOp(k, v, iv, landed) => FailedPut(s, k, EncodeBlock(g, iv, Bumped(s.infos[k]), v)[..landed])
    case ForeignOp(k, v, iv, number) => ForeignPut(g, s, k, v, iv, number)
    case GetOp(k) => s
  }

  /** Ideal authentication for a put cut short: if the mixture of two blocks verifies at all, it
      is one of the two. */
  ghost predicate Untorn(g: Cipher, s: Store, op: Op)
    requires Placed(s) && Fitting(s, op)
  {
    op.FailOp? ==>
      var info, block := s.infos[op.key], EncodeBlock(g, op.iv, Bumped(s.infos[op.key]), op.value);
      var mixed := block[..op.landed] + BlockAt(s, op.key)[op.landed..];
      Verifies(g, Aad(info.key, info.offset), mixed) ==> mixed in {block, BlockAt(s, op.key)}
  }

  lemma ApplyPlaced(g: Cipher, s: Store, op: Op)
    requires Placed(s) && Fitting(s, op)
    ensures var s' := Apply(g, s, op);
            Placed(s') && s'.infos.Keys == s.infos.Keys && s'.blockSize == s.blockSize
  {
    hide EncodeBlock, Splice;
  }

  ghost predicate Allowed(g: Cipher, s: Store, ops: seq<Op>)
    requires Placed(s)
    decreases |ops|
  {
    ops != [] ==>
      && Fitting(s, ops[0]) && Untorn(g, s, ops[0])
      && (ApplyPlaced(g, s, ops[0]); Allowed(g, Apply(g, s, ops[0]), ops[1..]))
  }

  /** The answers of a run over the bytes. */
  ghost function Run(g: Cipher, s: Store, ops: seq<Op>): seq<Option<Bytes>>
    requires Placed(s) && Allowed(g, s, ops)
    decreases |ops|
  {
    if ops == [] then [] else
    ApplyPlaced(g, s, ops[0]);
    (if ops[0].GetOp? then [Get(g, s, ops[0].key)] else []) + Run(g, Apply(g, s, ops[0]), ops[1..])
  }

  /** What is known of a key without looking at any bytes: the number in the table, and what a
      read may answer. */
  datatype Entry = Entry(number: U64, answers: set<Option<Bytes>>)

  function After(e: Entry, blockSize: nat, op: Op): Entry {
    match op
    case PutOp(_, v, iv, byServer) => Entry(if byServer then e.number else (e.number + 1) % TWO_64, {Some(v)})
    case FailOp(_, v, iv, landed) =>
      e.(answers := if landed == 0 then e.answers else if landed == blockSize then {None} else e.answers + {None})
    case ForeignOp(_, v, iv, number) => e.(answers := {if number == e.number then Some(v) else None})
    case GetOp(_) => e
  }

  /** The answers a run may give: a key answers with its last value, whichever side put it under
      the number in the table; with nothing if the other side put it under another number, or if
      a put of this side failed after all of its block had arrived; and with nothing or as before
      if one failed in between. Once a key has answered, it goes on answering the same. */
  ghost predicate Answers(m: map<Bytes, Entry>, blockSize: nat, ops: seq<Op>, answers: seq<Option<Bytes>>)
    decreases |ops|
  {
    if ops == [] then answers == [] else
    var k := ops[0].key;
    && k in m
    && if ops[0].GetOp? then
         && answers != [] && answers[0] in m[k].answers
         && Answers(m[k := m[k].(answers := {answers[0]})], blockSize, ops[1..], answers[1..])
       else Answers(m[k := After(m[k], blockSize, ops[0])], blockSize, ops[1..], answers)
  }

  /** An entry agrees with the bytes about its key. */
  ghost predicate Agrees(g: Cipher, s: Store, e: Entry, k: Bytes)
    requires Placed(s)
  {
    k in s.infos && e.number == s.infos[k].sequenceNumber && Get(g, s, k) in e.answers
  }

  ghost predicate Represents(g: Cipher, s: Store, m: map<Bytes, Entry>)
    requires Placed(s)
  {
    m.Keys == s.infos.Keys && forall k | k in m :: Agrees(g, s, m[k], k)
  }

  lemma ApplyOther(g: Cipher, s: Store, op: Op, j: Bytes)
    requires Placed(s) && Fitting(s, op) && j in s.infos && j != op.key
    ensures Placed(Apply(g, s, op)) && j in Apply(g, s, op).infos
    ensures Apply(g, s, op).infos[j] == s.infos[j] && Get(g, Apply(g, s, op), j) == Get(g, s, j)
  {
    ApplyPlaced(g, s, op);
    hide EncodeBlock, Get, Splice, Placed;
    var s' := Apply(g, s, op);
    match op
    case PutOp(k, v, iv, byServer) =>
      ReadOther(g, s, s', k, EncodeBlock(g, iv, s'.infos[k], v), j);
    case FailOp(k, v, iv, landed) =>
      ReadOther(g, s, s', k, EncodeBlock(g, iv, Bumped(s.infos[k]), v)[..landed], j);
    case ForeignOp(k, v, iv, number) =>
      ReadOther(g, s, s', k, EncodeBlock(g, iv, s.infos[k].(sequenceNumber := number), v), j);
    case GetOp(k) =>
  }

  /** A whole block reads as its value under the number of the table, and as nothing under
      another. */
  lemma ReadBlock(g: Cipher, s: Store, k: Bytes, value: Bytes, iv: Iv, number: U64)
    requires k in s.infos && s.infos[k].offset + s.blockSize <= |s.region| && |value| + MIN_VALUE_SIZE == s.blockSize
    ensures Get(g, ForeignPut(g, s, k, value, iv, number), k) == if number == s.infos[k].sequenceNumber then Some(value) else None
  {
    var info := s.infos[k].(sequenceNumber := number);
    BlockRoundTrip(g, iv, info, value, s.infos[k]);
    hide DecodeBlock, EncodeBlock, Splice;
    assert BlockAt(ForeignPut(g, s, k, value, iv, number), k) == EncodeBlock(g, iv, info, value);
  }

  lemma TornBlock(s: Store, k: Bytes, block: Bytes, landed: nat)
    requires k in s.infos && s.infos[k].offset + s.blockSize <= |s.region| && landed <= |block| == s.blockSize
    ensures BlockAt(FailedPut(s, k, block[..landed]), k) == block[..landed] + BlockAt(s, k)[landed..]
    ensures landed == 0 ==> block[..landed] + BlockAt(s, k)[landed..] == BlockAt(s, k)
    ensures landed == s.blockSize ==> block[..landed] + BlockAt(s, k)[landed..] == block
  {
    FirstPart(s.region, s.infos[k].offset, s.blockSize, block[..landed]);
  }

  lemma ReadTorn(g: Cipher, s: Store, k: Bytes, value: Bytes, iv: Iv, landed: nat)
    requires Placed(s) && Fitting(s, FailOp(k, value, iv, landed)) && Untorn(g, s, FailOp(k, value, iv, landed))
    ensures Placed(Apply(g, s, FailOp(k, value, iv, landed)))
    ensures Get(g, Apply(g, s, FailOp(k, value, iv, landed)), k) in
            if landed == 0 then {Get(g, s, k)} else if landed == s.blockSize then {None} else {Get(g, s, k), None}
  {
    hide EncodeBlock, DecodeBlock, Verifies, Aad, BlockAt, FailedPut;
    ApplyPlaced(g, s, FailOp(k, value, iv, landed));
    var info, written := s.infos[k], Bumped(s.infos[k]);
    var block := EncodeBlock(g, iv, written, value);
    assert written.sequenceNumber != info.sequenceNumber;
    BlockRoundTrip(g, iv, written, value, info);
    TornBlock(s, k, block, landed);
    MixedReads(g, info, BlockAt(s, k), block, block[..landed] + BlockAt(s, k)[landed..]);
    FailedInfos(s, k, block[..landed]);
  }

  lemma FailedInfos(s: Store, k: Bytes, landed: Bytes)
    requires k in s.infos && s.infos[k].offset + s.blockSize <= |s.region| && |landed| <= s.blockSize
    ensures FailedPut(s, k, landed).infos == s.infos && FailedPut(s, k, landed).blockSize == s.blockSize
  {
  }

  lemma MixedReads(g: Cipher, info: Info, before: Bytes, block: Bytes, mixed: Bytes)
    requires Verifies(g, Aad(info.key, info.offset), mixed) ==> mixed in {block, before}
    requires DecodeBlock(g, info, block) == None
    ensures DecodeBlock(g, info, mixed) in {DecodeBlock(g, info, before), None}
    ensures mixed == block ==> DecodeBlock(g, info, mixed) == None
  {
    hide Verifies;
  }

  lemma FirstPart(region: Bytes, at: nat, size: nat, data: Bytes)
    requires |data| <= size && at + size <= |region|
    ensures Splice(region, at, data)[at..at + size] == data + region[at..at + size][|data|..]
  {
  }

  lemma OwnPut(g: Cipher, s: Store, e: Entry, k: Bytes, v: Bytes, iv: Iv, byServer: bool)
    requires Placed(s) && Agrees(g, s, e, k) && Fitting(s, PutOp(k, v, iv, byServer))
    requires Placed(Apply(g, s, PutOp(k, v, iv, byServer)))
    ensures Agrees(g, Apply(g, s, PutOp(k, v, iv, byServer)), After(e, s.blockSize, PutOp(k, v, iv, byServer)), k)
  {
    ReadOwn(g, s, k, v, iv, byServer);
    hide Get, EncodeBlock, Splice;
  }

  lemma OwnFail(g: Cipher, s: Store, e: Entry, k: Bytes, v: Bytes, iv: Iv, landed: nat)
    requires Placed(s) && Agrees(g, s, e, k) && Fitting(s, FailOp(k, v, iv, landed)) && Untorn(g, s, FailOp(k, v, iv, landed))
    requires Placed(Apply(g, s, FailOp(k, v, iv, landed)))
    ensures Agrees(g, Apply(g, s, FailOp(k, v, iv, landed)), After(e, s.blockSize, FailOp(k, v, iv, landed)), k)
  {
    ReadTorn(g, s, k, v, iv, landed);
    hide Get, EncodeBlock, Splice, Untorn, Placed;
  }

  lemma OwnForeign(g: Cipher, s: Store, e: Entry, k: Bytes, v: Bytes, iv: Iv, number: U64)
    requires Placed(s) && Agrees(g, s, e, k) && Fitting(s, ForeignOp(k, v, iv, number))
    requires Placed(Apply(g, s, ForeignOp(k, v, iv, number)))
    ensures Agrees(g, Apply(g, s, ForeignOp(k, v, iv, number)), After(e, s.blockSize, ForeignOp(k, v, iv, number)), k)
  {
    ReadBlock(g, s, k, v, iv, number);
    hide Get, EncodeBlock, Splice;
  }

  lemma ApplyOwn(g: Cipher, s: Store, e: Entry, op: Op)
    requires Placed(s) && Fitting(s, op) && Untorn(g, s, op) && Agrees(g, s, e, op.key)
    ensures Placed(Apply(g, s, op)) && Agrees(g, Apply(g, s, op), After(e, s.blockSize, op), op.key)
  {
    hide Placed, Fitting, Untorn, Agrees, Put, FailedPut, ForeignPut;
    ApplyPlaced(g, s, op);
    match op
    case PutOp(k, v, iv, byServer) => OwnPut(g, s, e, k, v, iv, byServer);
    case FailOp(k, v, iv, landed) => OwnFail(g, s, e, k, v, iv, landed);
    case ForeignOp(k, v, iv, number) => OwnForeign(g, s, e, k, v, iv, number);
    case GetOp(k) =>
  }

  lemma StepRepresents(g: Cipher, s: Store, m: map<Bytes, Entry>, op: Op)
    requires Placed(s) && Represents(g, s, m) && Fitting(s, op) && Untorn(g, s, op)
    ensures Placed(Apply(g, s, op))
    ensures Represents(g, Apply(g, s, op), m[op.key := After(m[op.key], s.blockSize, op)])
  {
    hide Apply, After, Get, Placed, Untorn, Agrees;
    assert op.key in m && Agrees(g, s, m[op.key], op.key);
    ApplyPlaced(g, s, op);
    ApplyOwn(g, s, m[op.key], op);
    var s', m' := Apply(g, s, op), m[op.key := After(m[op.key], s.blockSize, op)];
    forall j | j in m' && j != op.key ensures Agrees(g, s', m'[j], j) {
      assert Agrees(g, s, m[j], j);
      OtherAgrees(g, s, m[j], op, j);
    }
  }

  lemma OtherAgrees(g: Cipher, s: Store, e: Entry, op: Op, j: Bytes)
    requires Placed(s) && Fitting(s, op) && Agrees(g, s, e, j) && j != op.key
    ensures Placed(Apply(g, s, op)) && Agrees(g, Apply(g, s, op), e, j)
  {
    ApplyOther(g, s, op, j);
    hide Apply, Placed, Get;
  }

  lemma Narrowed(g: Cipher, s: Store, m: map<Bytes, Entry>, k: Bytes)
    requires Placed(s) && Represents(g, s, m) && k in m
    ensures Represents(g, s, m[k := m[k].(answers := {Get(g, s, k)})]) && Get(g, s, k) in m[k].answers
  {
    hide Get;
  }

  /** Every run over the bytes, with puts of both sides, under equal or unequal numbers, and puts
      that fail, gives answers that the two tables and the order of events explain. */
  lemma {:induction false} RunRefines(g: Cipher, s: Store, m: map<Bytes, Entry>, ops: seq<Op>)
    requires Placed(s) && Allowed(g, s, ops) && Represents(g, s, m)
    ensures Answers(m, s.blockSize, ops, Run(g, s, ops))
    decreases |ops|
  {
    if ops != [] {
      hide Get, Placed, Fitting, Untorn, After;
      var op, s' := ops[0], Apply(g, s, ops[0]);
      ApplyPlaced(g, s, op);
      if op.GetOp? {
        assert Run(g, s, ops)[1..] == Run(g, s, ops[1..]);
        Narrowed(g, s, m, op.key);
        hide Represents;
        RunRefines(g, s, m[op.key := m[op.key].(answers := {Get(g, s, op.key)})], ops[1..]);
      } else {
        StepRepresents(g, s, m, op);
        assert [] + Run(g, s', ops[1..]) == Run(g, s', ops[1..]);
        hide Apply, Represents;
        RunRefines(g, s', m[op.key := After(m[op.key], s.blockSize, op)], ops[1..]);
      }
    }
  }

  // ---- runs without failures, of one side --------------------------------------------------

  /** The answers of a map. */
  ghost function RunMap(m: map<Bytes, Bytes>, ops: seq<Op>): seq<Option<Bytes>>
    decreases |ops|
  {
    if ops == [] then [] else
    match ops[0]
    case GetOp(k) => [if k in m then Some(m[k]) else None] + RunMap(m, ops[1..])
    case PutOp(k, v, iv, byServer) => RunMap(m[k := v], ops[1..])
    case _ => RunMap(m, ops[1..])
  }

  /** No run of one side's successful puts and gets can tell the region from a map. */
  lemma {:induction false} RunIsMap(g: Cipher, s: Store, ops: seq<Op>)
    requires Placed(s) && Allowed(g, s, ops) && forall op | op in ops :: op.PutOp? || op.GetOp?
    ensures Run(g, s, ops) == RunMap(View(g, s), ops)
    decreases |ops|
  {
    hide Get, Put, Untorn;
    if ops != [] {
      ApplyPlaced(g, s, ops[0]);
      assert ops[0] in ops;
      match ops[0] {
        case GetOp(k) =>
          RunIsMap(g, s, ops[1..]);
        case PutOp(k, v, iv, byServer) =>
          PutRefines(g, s, k, v, iv, byServer);
          RunIsMap(g, Put(g, s, k, v, iv, byServer), ops[1..]);
      }
    }
  }
}

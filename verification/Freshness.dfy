/** What a client of the one-sided store may read when the region is in hostile hands: any
    block may be returned for any read, but authenticated encryption is ideal, so a block whose
    tag is right for a key and offset was written for that key and offset before. */
module Freshness {
  import opened SeqOps
  import opened Messages
  import opened Gcm
  import opened OneSided
  import opened OneSidedStore

  /** A block that left some party: written for `info`, holding `value`. */
  datatype Block = Block(iv: Iv, info: Info, value: Bytes)

  /** The client's table and, for the record, every block written so far, and for each key the
      value last put with success, by either side. */
  datatype State = State(infos: map<Bytes, Info>, written: set<Block>, last: map<Bytes, Bytes>)

  datatype Step =
    | ClientPut(k: Bytes, value: Bytes, iv: Iv)
    | FailPut(k: Bytes, value: Bytes, iv: Iv)   // the write fails, but its block may be around
    | ServerPut(k: Bytes, value: Bytes, iv: Iv, number: U64) // under the number of the server's own table

  /** The server never advances its number, so it is not ahead of the client's. */
  predicate Enabled(s: State, step: Step) {
    && step.k in s.infos
    && if step.ServerPut? then step.number <= s.infos[step.k].sequenceNumber else s.infos[step.k].sequenceNumber + 1 < TWO_64
  }

  /** The number a step writes under. */
  function NumberOf(s: State, step: Step): U64
    requires Enabled(s, step)
  {
    if step.ServerPut? then step.number else s.infos[step.k].sequenceNumber + 1
  }

  function Next(s: State, step: Step): State
    requires Enabled(s, step)
  {
    var info := s.infos[step.k];
    match step
    case ClientPut(k, v, iv) =>
      State(s.infos[k := Bumped(info)], s.written + {Block(iv, Bumped(info), v)}, s.last[k := v])
    case FailPut(k, v, iv) => s.(written := s.written + {Block(iv, Bumped(info), v)})
    case ServerPut(k, v, iv, number) =>
      s.(written := s.written + {Block(iv, info.(sequenceNumber := number), v)}, last := s.last[k := v])
  }

  function BytesOf(g: Cipher, b: Block): Bytes { EncodeBlock(g, b.iv, b.info, b.value) }

  /** Ideal authentication: what verifies for a key and offset is a block written for them. */
  ghost predicate Authentic(g: Cipher, s: State, k: Bytes, bytes: Bytes)
    requires k in s.infos
  {
    var aad := Aad(s.infos[k].key, s.infos[k].offset);
    Verifies(g, aad, bytes) ==> exists b :: b in s.written && Aad(b.info.key, b.info.offset) == aad && bytes == BytesOf(g, b)
  }

  /** A block written for key `k` with number `n` and value `v`. */
  ghost predicate WrittenWith(s: State, k: Bytes, n: int, v: Bytes) {
    exists b :: b in s.written && b.info.key == k && b.info.sequenceNumber == n && b.value == v
  }

  /** Every key has its own entry, no block is ahead of the table by more than the one number a
      failed put tried, and some value was written with the current number. */
  ghost predicate Inv(s: State) {
    && s.last.Keys == s.infos.Keys
    && (forall k | k in s.infos :: s.infos[k].key == k && exists v :: WrittenWith(s, k, s.infos[k].sequenceNumber, v))
    && (forall b | b in s.written && b.info.key in s.infos ::
          var info := s.infos[b.info.key];
          b.info.offset == info.offset && b.info.sequenceNumber <= info.sequenceNumber + 1)
  }

  /** What a step adds to the blocks. */
  lemma WrittenNext(s: State, step: Step, k: Bytes, n: int, v: Bytes)
    requires Inv(s) && Enabled(s, step)
    ensures WrittenWith(Next(s, step), k, n, v) <==>
            WrittenWith(s, k, n, v) || (k == step.k && n == NumberOf(s, step) && v == step.value)
  {
    var s' := Next(s, step);
    var info := s.infos[step.k];
    var made := Block(step.iv, info.(sequenceNumber := NumberOf(s, step)), step.value);
    assert s'.written == s.written + {made};
    if WrittenWith(s, k, n, v) {
      var b :| b in s.written && b.info.key == k && b.info.sequenceNumber == n && b.value == v;
      assert b in s'.written;
    }
    assert made in s'.written;
  }

  /** No block is ahead by two. */
  lemma NoneFarAhead(s: State, k: Bytes, n: int, v: Bytes)
    requires Inv(s) && k in s.infos && n > s.infos[k].sequenceNumber + 1
    ensures !WrittenWith(s, k, n, v)
  {
  }

  lemma StepBounds(s: State, step: Step)
    requires Inv(s) && Enabled(s, step)
    ensures var s' := Next(s, step);
            && s'.infos.Keys == s.infos.Keys && s'.last.Keys == s'.infos.Keys
            && (forall k | k in s'.infos :: s'.infos[k].key == k)
            && (forall b | b in s'.written && b.info.key in s'.infos ::
                  var info := s'.infos[b.info.key];
                  b.info.offset == info.offset && b.info.sequenceNumber <= info.sequenceNumber + 1)
  {
    hide WrittenWith;
  }

  lemma StepKeeps(s: State, step: Step)
    requires Inv(s) && Enabled(s, step)
    ensures Inv(Next(s, step))
  {
    StepBounds(s, step);
    hide WrittenWith;
    var s' := Next(s, step);
    forall k | k in s'.infos ensures exists v :: WrittenWith(s', k, s'.infos[k].sequenceNumber, v) {
      var v :| WrittenWith(s, k, s.infos[k].sequenceNumber, v);
      WrittenNext(s, step, k, s'.infos[k].sequenceNumber, v);
      WrittenNext(s, step, k, s'.infos[k].sequenceNumber, step.value);
    }
  }

  /** A read, whatever the region returns, fails or yields a value written for this key with
      the current number: blocks rolled back, moved or taken from other keys are refused. */
  lemma ReadIsCurrent(g: Cipher, s: State, k: Bytes, bytes: Bytes)
    requires Inv(s) && k in s.infos && Authentic(g, s, k, bytes)
    ensures DecodeBlock(g, s.infos[k], bytes).Some? ==>
              WrittenWith(s, k, s.infos[k].sequenceNumber, DecodeBlock(g, s.infos[k], bytes).value)
  {
    var info := s.infos[k];
    if DecodeBlock(g, info, bytes).Some? {
      var b :| b in s.written && Aad(b.info.key, b.info.offset) == Aad(info.key, info.offset) && bytes == BytesOf(g, b);
      AadInjective(b.info.key, b.info.offset, info.key, info.offset);
      BlockRoundTrip(g, b.iv, b.info, b.value, info);
    }
  }

  /** And each such value can in fact be read. */
  lemma CurrentIsReadable(g: Cipher, s: State, k: Bytes, v: Bytes) returns (bytes: Bytes)
    requires Inv(s) && k in s.infos && WrittenWith(s, k, s.infos[k].sequenceNumber, v)
    ensures Authentic(g, s, k, bytes) && DecodeBlock(g, s.infos[k], bytes) == Some(v)
  {
    var b :| b in s.written && b.info.key == k && b.info.sequenceNumber == s.infos[k].sequenceNumber && b.value == v;
    bytes := BytesOf(g, b);
    BlockRoundTrip(g, b.iv, b.info, b.value, s.infos[k]);
  }

  /** Reads of `k` are fresh: they fail or return the value last put with success. */
  ghost predicate Fresh(g: Cipher, s: State, k: Bytes)
    requires k in s.infos && k in s.last
  {
    forall bytes | Authentic(g, s, k, bytes) ::
      DecodeBlock(g, s.infos[k], bytes) in {None, Some(s.last[k])}
  }

  // ---- in terms of what the caller did -----------------------------------------------------

  /** What the callers can note about one key: the number in the client's table, the values put
      with it, and those whose put has failed since the last success, tried with the number
      after it. */
  datatype Ledger = Ledger(number: int, current: set<Bytes>, ahead: set<Bytes>)

  function Account(l: Ledger, k: Bytes, step: Step): Ledger {
    if step.k != k then l else
    match step
    case ClientPut(_, v, iv) => Ledger(l.number + 1, l.ahead + {v}, {})
    case FailPut(_, v, iv) => l.(ahead := l.ahead + {v})
    case ServerPut(_, v, iv, number) => if number == l.number then l.(current := l.current + {v}) else l
  }

  function Accounts(l: Ledger, k: Bytes, steps: seq<Step>): Ledger
    decreases |steps|
  {
    if steps == [] then l else Accounts(Account(l, k, steps[0]), k, steps[1..])
  }

  ghost predicate Run(s: State, steps: seq<Step>, s': State)
    decreases |steps|
  {
    if steps == [] then s == s' else Enabled(s, steps[0]) && Run(Next(s, steps[0]), steps[1..], s')
  }

  /** The ledger of `k` agrees with the blocks about a value. */
  ghost predicate Listed(s: State, k: Bytes, l: Ledger, v: Bytes)
    requires k in s.infos
  {
    && l.number == s.infos[k].sequenceNumber
    && (v in l.current <==> WrittenWith(s, k, s.infos[k].sequenceNumber, v))
    && (v in l.ahead <==> WrittenWith(s, k, s.infos[k].sequenceNumber + 1, v))
  }

  ghost predicate Balanced(s: State, k: Bytes, l: Ledger)
    requires k in s.infos
  {
    forall v :: Listed(s, k, l, v)
  }

  lemma StaysListed(s: State, step: Step, k: Bytes, l: Ledger, v: Bytes)
    requires Inv(s) && Enabled(s, step) && k in s.infos && Listed(s, k, l, v)
    ensures k in Next(s, step).infos
    ensures Listed(Next(s, step), k, Account(l, k, step), v)
  {
    hide WrittenWith, Inv;
    var n: int := s.infos[k].sequenceNumber;
    WrittenNext(s, step, k, n, v);
    WrittenNext(s, step, k, n + 1, v);
    WrittenNext(s, step, k, n + 2, v);
    NoneFarAhead(s, k, n + 2, v);
  }

  lemma StaysBalanced(s: State, step: Step, k: Bytes, l: Ledger)
    requires Inv(s) && Enabled(s, step) && k in s.infos && Balanced(s, k, l)
    ensures k in Next(s, step).infos
    ensures Balanced(Next(s, step), k, Account(l, k, step))
  {
    hide Listed, Inv, Account;
    var s', l' := Next(s, step), Account(l, k, step);
    forall v ensures Listed(s', k, l', v) {
      StaysListed(s, step, k, l, v);
    }
  }

  lemma {:induction false} RunBalanced(s: State, steps: seq<Step>, s': State, k: Bytes, l: Ledger)
    requires Inv(s) && Run(s, steps, s') && k in s.infos && Balanced(s, k, l)
    ensures Inv(s') && k in s'.infos && Balanced(s', k, Accounts(l, k, steps))
    decreases |steps|
  {
    if steps != [] {
      StepKeeps(s, steps[0]);
      StaysBalanced(s, steps[0], k, l);
      hide Balanced, Inv, Enabled, Next;
      RunBalanced(Next(s, steps[0]), steps[1..], s', k, Account(l, k, steps[0]));
    }
  }

  lemma FreshMeansSole(g: Cipher, s: State, k: Bytes, l: Ledger)
    requires Inv(s) && k in s.infos && Balanced(s, k, l) && Fresh(g, s, k)
    ensures l.current == {s.last[k]}
  {
    var some :| WrittenWith(s, k, s.infos[k].sequenceNumber, some);
    hide DecodeBlock, Authentic, WrittenWith;
    forall v | v in l.current ensures v == s.last[k] {
      assert Listed(s, k, l, v);
      var bytes := CurrentIsReadable(g, s, k, v);
    }
    assert Listed(s, k, l, some);
  }

  lemma SoleMeansFresh(g: Cipher, s: State, k: Bytes, l: Ledger)
    requires Inv(s) && k in s.infos && Balanced(s, k, l) && l.current == {s.last[k]}
    ensures Fresh(g, s, k)
  {
    hide DecodeBlock, Authentic, WrittenWith;
    forall bytes | Authentic(g, s, k, bytes)
      ensures DecodeBlock(g, s.infos[k], bytes) in {None, Some(s.last[k])}
    {
      ReadIsCurrent(g, s, k, bytes);
      var read := DecodeBlock(g, s.infos[k], bytes);
      assert read.Some? ==> Listed(s, k, l, read.value);
    }
  }

  /** After any run, reads of `k` are fresh if and only if the ledger lists the last value and no
      other under the client's number. */
  lemma FreshExactly(g: Cipher, s: State, steps: seq<Step>, s': State, k: Bytes, l: Ledger)
    requires Inv(s) && Run(s, steps, s') && k in s.infos && Balanced(s, k, l)
    ensures Inv(s') && k in s'.infos
    ensures Fresh(g, s', k) <==> Accounts(l, k, steps).current == {s'.last[k]}
  {
    RunBalanced(s, steps, s', k, l);
    hide Run, Accounts, Balanced, Fresh;
    var l' := Accounts(l, k, steps);
    if Fresh(g, s', k) { FreshMeansSole(g, s', k, l'); }
    if l'.current == {s'.last[k]} { SoleMeansFresh(g, s', k, l'); }
  }

  lemma {:induction false} CleanLedger(s: State, steps: seq<Step>, s': State, k: Bytes, n: int)
    requires Run(s, steps, s') && k in s.infos && k in s.last
    requires forall i | 0 <= i < |steps| && steps[i].k == k :: steps[i].ClientPut?
    ensures k in s'.last && Accounts(Ledger(n, {s.last[k]}, {}), k, steps).current == {s'.last[k]}
    decreases |steps|
  {
    if steps != [] {
      assert steps[0].k == k ==> steps[0].ClientPut?;
      assert forall i | 0 <= i < |steps[1..]| :: steps[1..][i] == steps[i + 1];
      assert steps[0].k == k ==> Account(Ledger(n, {s.last[k]}, {}), k, steps[0]) == Ledger(n + 1, {steps[0].value}, {});
      CleanLedger(Next(s, steps[0]), steps[1..], s', k, if steps[0].k == k then n + 1 else n);
    }
  }

  /** In particular, as long as only clients put a key and no put of it fails. */
  lemma FreshWithoutFailures(g: Cipher, s: State, steps: seq<Step>, s': State, k: Bytes)
    requires Inv(s) && Run(s, steps, s') && k in s.infos
    requires Balanced(s, k, Ledger(s.infos[k].sequenceNumber, {s.last[k]}, {}))
    requires forall i | 0 <= i < |steps| && steps[i].k == k :: steps[i].ClientPut?
    ensures k in s'.infos && k in s'.last && Fresh(g, s', k)
  {
    var n := s.infos[k].sequenceNumber;
    hide Run, Accounts, Balanced;
    CleanLedger(s, steps, s', k, n);
    FreshExactly(g, s, steps, s', k, Ledger(n, {s.last[k]}, {}));
  }

  /** What setting up the store leaves: one block for each key. */
  ghost predicate SetUp(s: State) {
    && s.last.Keys == s.infos.Keys
    && (forall k | k in s.infos :: s.infos[k].key == k && exists iv :: Block(iv, s.infos[k], s.last[k]) in s.written)
    && (forall b | b in s.written && b.info.key in s.infos :: b.info == s.infos[b.info.key] && b.value == s.last[b.info.key])
  }

  /** The client's state after `setup_kv_store` over distinct keys: its table, the blocks written
      and the values they hold. */
  ghost function FromSetup(g: Cipher, ivs: seq<Iv>, region: Bytes, valueSize: nat, infos: seq<Info>): State
    requires DistinctKeys(infos) && |ivs| == |infos| && Placed(Store(region, Table(infos), MIN_VALUE_SIZE + valueSize))
  {
    var store := Store(region, Table(infos), MIN_VALUE_SIZE + valueSize);
    State(Table(infos),
          set i: nat | i < |infos| && infos[i].key in View(g, store) :: Block(ivs[i], infos[i], View(g, store)[infos[i].key]),
          View(g, store))
  }

  /** What the setup loop guarantees is where the freshness results start. */
  lemma SetupIsSetUp(g: Cipher, ivs: seq<Iv>, region: Bytes, plain: Bytes, valueSize: nat, infos: seq<Info>)
    requires DistinctKeys(infos) && 0 < valueSize && |ivs| == |infos|
    requires forall i | 0 <= i < |infos| :: infos[i].offset == i * (MIN_VALUE_SIZE + valueSize)
    requires forall i: nat | i < |infos| :: Filled(g, ivs[i], infos[i], region, plain, i, valueSize)
    ensures Placed(Store(region, Table(infos), MIN_VALUE_SIZE + valueSize))
    ensures SetUp(FromSetup(g, ivs, region, valueSize, infos))
  {
    SetupIsStore(g, ivs, region, plain, valueSize, infos);
    hide View, Placed, EncodeBlock;
    var s := FromSetup(g, ivs, region, valueSize, infos);
    forall k | k in s.infos ensures exists iv :: Block(iv, s.infos[k], s.last[k]) in s.written {
      var i: nat :| i < |infos| && infos[i].key == k;
      assert Block(ivs[i], s.infos[k], s.last[k]) in s.written;
    }
  }

  lemma SetUpBalanced(s: State)
    requires SetUp(s)
    ensures Inv(s)
    ensures forall k | k in s.infos :: Balanced(s, k, Ledger(s.infos[k].sequenceNumber, {s.last[k]}, {}))
  {
    forall k | k in s.infos ensures WrittenWith(s, k, s.infos[k].sequenceNumber, s.last[k]) {
      var iv :| Block(iv, s.infos[k], s.last[k]) in s.written;
    }
  }

  /** The families that are not fresh. A put that failed is not gone: after the next put the
      region can show its value under the right number. */
  lemma FailedPutReturns(g: Cipher, s: State, k: Bytes, failed: Bytes, iv: Iv, value: Bytes, iv': Iv)
    returns (bytes: Bytes)
    requires Inv(s) && Enabled(s, FailPut(k, failed, iv))
    ensures var s' := Next(Next(s, FailPut(k, failed, iv)), ClientPut(k, value, iv'));
            && k in s'.infos && s'.last[k] == value
            && Authentic(g, s', k, bytes) && DecodeBlock(g, s'.infos[k], bytes) == Some(failed)
            && (failed != value ==> !Fresh(g, s', k))
  {
    var n := s.infos[k].sequenceNumber;
    var s1 := Next(s, FailPut(k, failed, iv));
    var s2 := Next(s1, ClientPut(k, value, iv'));
    StepKeeps(s, FailPut(k, failed, iv));
    StepKeeps(s1, ClientPut(k, value, iv'));
    WrittenNext(s, FailPut(k, failed, iv), k, n + 1, failed);
    WrittenNext(s1, ClientPut(k, value, iv'), k, n + 1, failed);
    hide Inv, WrittenWith, DecodeBlock, Authentic;
    bytes := CurrentIsReadable(g, s2, k, failed);
  }

  /** A put by the server leaves whatever the client could read before readable, whether the
      server's number is the client's or has fallen behind it. */
  lemma ServerPutReplaceable(g: Cipher, s: State, k: Bytes, value: Bytes, iv: Iv, number: U64, before: Bytes)
    returns (bytes: Bytes)
    requires Inv(s) && Enabled(s, ServerPut(k, value, iv, number))
    requires WrittenWith(s, k, s.infos[k].sequenceNumber, before)
    ensures var s' := Next(s, ServerPut(k, value, iv, number));
            && k in s'.infos && s'.last[k] == value
            && Authentic(g, s', k, bytes) && DecodeBlock(g, s'.infos[k], bytes) == Some(before)
            && (before != value ==> !Fresh(g, s', k))
  {
    var s' := Next(s, ServerPut(k, value, iv, number));
    StepKeeps(s, ServerPut(k, value, iv, number));
    WrittenNext(s, ServerPut(k, value, iv, number), k, s.infos[k].sequenceNumber, before);
    hide Inv, WrittenWith, DecodeBlock, Authentic;
    bytes := CurrentIsReadable(g, s', k, before);
  }

  /** Behind the client's number, the server's value cannot be read at all. */
  lemma StaleServerPut(g: Cipher, s: State, k: Bytes, value: Bytes, iv: Iv, number: U64)
    requires k in s.infos && s.infos[k].key == k && number < s.infos[k].sequenceNumber
    ensures DecodeBlock(g, s.infos[k], BytesOf(g, Block(iv, s.infos[k].(sequenceNumber := number), value))) == None
  {
    BlockRoundTrip(g, iv, s.infos[k].(sequenceNumber := number), value, s.infos[k]);
  }

  // ---- the store's own puts are such steps -------------------------------------------------

  /** The table moves as the steps say, and what lands in the region is the block they record,
      or a first part of it. */
  lemma PutsAreSteps(g: Cipher, s: State, store: Store, k: Bytes, value: Bytes, iv: Iv, result: WriteResult)
    requires store.infos == s.infos && Fits(store, k, value, result) && Enabled(s, ClientPut(k, value, iv))
    ensures var store', block := AfterPut(g, store, k, value, iv, result), Block(iv, Bumped(s.infos[k]), value);
            && |BlockAt(store', k)| == |BytesOf(g, block)| == store.blockSize
            && (result.Written? ==>
                  var s' := Next(s, ClientPut(k, value, iv));
                  store'.infos == s'.infos && block in s'.written && BlockAt(store', k) == BytesOf(g, block))
            && (result.WriteFailed? ==>
                  var s' := Next(s, FailPut(k, value, iv));
                  store'.infos == s'.infos && block in s'.written &&
                  BlockAt(store', k) == BytesOf(g, block)[..result.landed] + BlockAt(store, k)[result.landed..])
            && (result.EncryptionFailed? ==> store' == store)
  {
    AfterPutParts(g, store, k, value, iv, result);
    hide EncodeBlock, AfterPut;
    if result.WriteFailed? {
      FirstPart(store.region, store.infos[k].offset, store.blockSize, BytesOf(g, Block(iv, Bumped(s.infos[k]), value))[..result.landed]);
    }
  }

  /** So does a put by the server, through its own table, which has the client's keys and offsets. */
  lemma ServerPutIsStep(g: Cipher, s: State, server: Store, k: Bytes, value: Bytes, iv: Iv)
    requires k in s.infos && k in server.infos && server.infos[k].offset + server.blockSize <= |server.region|
    requires |value| + MIN_VALUE_SIZE == server.blockSize
    requires server.infos[k] == s.infos[k].(sequenceNumber := server.infos[k].sequenceNumber)
    requires Enabled(s, ServerPut(k, value, iv, server.infos[k].sequenceNumber))
    ensures var step, block := ServerPut(k, value, iv, server.infos[k].sequenceNumber), Block(iv, server.infos[k], value);
            && Next(s, step).infos == s.infos && block in Next(s, step).written
            && BlockAt(Put(g, server, k, value, iv, true), k) == BytesOf(g, block)
            && Put(g, server, k, value, iv, true).infos == server.infos
  {
    hide EncodeBlock;
  }
}

/** One server thread: the acceptance window and the request handler, in `ServerThread.cpp`
    and `Server.cpp`. */
module Server {
  import opened SeqOps
  import opened Messages

  const SEQ_THRESHOLD: int := 64

  /** The number the thread expects, zero standing for "not synchronised", admits `s`.
      The distance is the plain one, not the one modulo 2^54. */
  predicate InWindow(next: SeqNumber, s: SeqNumber) {
    next == 0 || -2 * SEQ_THRESHOLD <= s - next <= 2 * SEQ_THRESHOLD
  }

  /** The number expected after a request numbered `s`. */
  function Expected(s: SeqNumber): SeqNumber { NextNumber(NextNumber(s)) }

  // ---- the handler as a function -----------------------------------------------------------

  type Store = map<Bytes, Bytes>

  /** One atomic call of the store's get, put or delete function. A put may fail, and then
      changes nothing; get and delete fail exactly on a missing key. */
  function KvCall(kv: Store, m: Message, putFails: bool): (Store, Outcome)
    requires m.hdr.op != RDMA_ERR
  {
    if m.hdr.op == RDMA_GET then
      (kv, if m.key in kv then Ok(kv[m.key]) else Failed)
    else if m.hdr.op == RDMA_PUT then
      if putFails then (kv, Failed) else (kv[m.key := m.value], Ok([]))
    else
      if m.key in kv then (kv - {m.key}, Ok([])) else (kv, Failed)
  }

  /** The reply to request `x` that reports `out`. */
  function ReplyTo(x: SeqOp, out: Outcome): Message {
    match out
    case Ok(v) => Message(x.Next(), [], if x.op == RDMA_GET then v else [])
    case Failed => Message(x.Next().SetOp(RDMA_ERR), [], [])
  }

  datatype Thread = Thread(next: SeqNumber, connected: bool)

  /** Failures outside the thread: the store refuses a put, encryption fails, and the size of
      the buffer allocated for replies. */
  datatype Surroundings = Surroundings(putFails: bool, encryptFails: bool, maxMsgSize: nat)

  predicate Sendable(reply: Message, env: Surroundings) {
    |reply.value| + MIN_MSG_LEN <= env.maxMsgSize && !env.encryptFails
  }

  datatype Handled = Handled(thread: Thread, kv: Store, executed: Option<Outcome>, reply: Option<Message>)

  /** Everything one run of `req_handler` does with a request that decrypts to `m`. */
  function Handle(id: ClientId, t: Thread, kv: Store, m: Message, env: Surroundings): Handled {
    if m.hdr.op == RDMA_ERR then
      var reply := ReplyTo(m.hdr, Failed);
      Handled(Thread(Expected(m.hdr.num), false), kv, None, if Sendable(reply, env) then Some(reply) else None)
    else if m.hdr.id != id || !InWindow(t.next, m.hdr.num) then
      Handled(t, kv, None, None)
    else
      var (kv', out) := KvCall(kv, m, env.putFails);
      var reply := ReplyTo(m.hdr, out);
      Handled(t.(next := Expected(m.hdr.num)), kv', Some(out), if Sendable(reply, env) then Some(reply) else None)
  }

  /** Another client's get, put or delete is ignored. */
  lemma OthersIgnored(id: ClientId, t: Thread, kv: Store, m: Message, env: Surroundings)
    requires m.hdr.id != id && m.hdr.op != RDMA_ERR
    ensures Handle(id, t, kv, m, env) == Handled(t, kv, None, None)
  {
  }

  // ---- the handler as it runs --------------------------------------------------------------

  /** The store behind the server's three function pointers. */
  class KvStore {
    var entries: Store

    constructor ()
      ensures entries == map[]
    {
      entries := map[];
    }

    method Get(key: Bytes) returns (value: Option<Bytes>)
      ensures value == if key in entries then Some(entries[key]) else None
    {
      value := if key in entries then Some(entries[key]) else None;
    }

    method Put(key: Bytes, value: Bytes, fails: bool) returns (ret: int)
      modifies this
      ensures ret < 0 <==> fails
      ensures entries == if fails then old(entries) else old(entries)[key := value]
    {
      if fails { return -1; }
      entries := entries[key := value];
      return 0;
    }

    method Delete(key: Bytes) returns (ret: int)
      modifies this
      ensures ret < 0 <==> key !in old(entries)
      ensures entries == old(entries) - {key}
    {
      if key !in entries { return -1; }
      entries := entries - {key};
      return 0;
    }
  }

  class ServerThread {
    var nextSeq: SeqNumber
    var stayConnected: bool
    const clientId: ClientId

    constructor (id: ClientId)
      ensures clientId == id && State() == Thread(0, true)
    {
      clientId := id;
      nextSeq := 0;
      stayConnected := true;
    }

    function State(): Thread
      reads this
    {
      Thread(nextSeq, stayConnected)
    }

    /** A rejected number changes nothing; an accepted one is remembered. */
    method IsSeqValid(x: SeqOp) returns (valid: bool)
      modifies this`nextSeq
      ensures valid <==> x.id == clientId && (old(nextSeq) == 0 || -128 <= x.num - old(nextSeq) <= 128)
      ensures valid <==> x.id == clientId && InWindow(old(nextSeq), x.num)
      ensures nextSeq == if valid then x.num else old(nextSeq)
    {
      if x.id != clientId { return false; }
      if nextSeq == 0 {
        nextSeq := x.num;
        return true;
      }
      // subtraction on 64-bit unsigned integers, read back as a signed one
      var raw: U64 := (x.num - nextSeq + TWO_64) % TWO_64;
      var signed := if raw >= TWO_64 / 2 then raw - TWO_64 else raw;
      var seqDiff := if signed < 0 then -signed else signed;
      if seqDiff <= SEQ_THRESHOLD * 2 {
        if seqDiff > 0 { nextSeq := x.num; }
        return true;
      }
      return false;
    }

    method GetNextSeq(x: SeqOp, op: OpCode) returns (r: SeqOp)
      modifies this`nextSeq
      ensures r == x.Next().SetOp(op) == SeqOp((x.num + 1) % SEQ_SPAN, x.id, op)
      ensures nextSeq == Expected(x.num) == (x.num + 2) % SEQ_SPAN
    {
      var ret := x.Next();
      nextSeq := ret.Next().num;
      return ret.SetOp(op);
    }

    method Terminate()
      modifies this`stayConnected
      ensures !stayConnected
    {
      stayConnected := false;
    }

    /** Nothing is sent if the reply does not fit the buffer, or if encryption fails. */
    method SendEncryptedResponse(hdr: SeqOp, value: Bytes, env: Surroundings) returns (sent: Option<Message>)
      ensures sent.Some? <==> |value| + 44 <= env.maxMsgSize && !env.encryptFails
      ensures sent.Some? ==> sent.value == Message(hdr, [], value)
      ensures var reply := Message(hdr, [], value);
              sent == if Sendable(reply, env) then Some(reply) else None
    {
      if |value| + MIN_MSG_LEN > env.maxMsgSize { return None; }
      if env.encryptFails { return None; }
      return Some(Message(hdr, [], value));
    }

    method ReqHandler(store: KvStore, request: Option<Message>, env: Surroundings)
      returns (sent: Option<Message>, ghost executed: Option<Outcome>)
      modifies this`nextSeq, this`stayConnected, store
      ensures request.None? ==> State() == old(State()) && store.entries == old(store.entries) && sent == None && executed == None
      ensures request.Some? ==>
                Handled(State(), store.entries, executed, sent) ==
                Handle(clientId, old(State()), old(store.entries), request.value, env)
      // only a disconnect ends the connection
      ensures stayConnected <==> old(stayConnected) && !(request.Some? && request.value.hdr.op == RDMA_ERR)
      // its own client's requests reach the store, within 128 numbers of the expected one, or if
      // none is expected yet; these and disconnects are answered and move the expectation
      ensures executed.Some? <==>
                && request.Some? && request.value.hdr.op != RDMA_ERR && request.value.hdr.id == clientId
                && (old(nextSeq) == 0 || -128 <= request.value.hdr.num - old(nextSeq) <= 128)
      ensures executed.Some? || (request.Some? && request.value.hdr.op == RDMA_ERR) ==>
                nextSeq == (request.value.hdr.num + 2) % SEQ_SPAN
      ensures executed.None? && !(request.Some? && request.value.hdr.op == RDMA_ERR) ==>
                nextSeq == old(nextSeq) && sent == None
      ensures executed.None? ==> store.entries == old(store.entries)
      ensures executed.Some? && request.value.hdr.op == RDMA_GET ==>
                && store.entries == old(store.entries)
                && executed.value == if request.value.key in store.entries then Ok(store.entries[request.value.key]) else Failed
      ensures executed.Some? && request.value.hdr.op == RDMA_PUT ==>
                && executed.value == (if env.putFails then Failed else Ok([]))
                && store.entries == if env.putFails then old(store.entries) else old(store.entries)[request.value.key := request.value.value]
      ensures executed.Some? && request.value.hdr.op == RDMA_DELETE ==>
                && executed.value == (if request.value.key in old(store.entries) then Ok([]) else Failed)
                && store.entries == old(store.entries) - {request.value.key}
      // the reply: next number, error or the request's operation, the value of a get
      ensures sent.Some? ==>
                && sent.value.hdr.num == (request.value.hdr.num + 1) % SEQ_SPAN && sent.value.hdr.id == request.value.hdr.id
                && sent.value.hdr.op == (if executed == Some(Failed) then RDMA_ERR else request.value.hdr.op)
                && sent.value.key == []
                && sent.value.value == (if executed.Some? && executed.value.Ok? then executed.value.value else [])
                && |sent.value.value| + 44 <= env.maxMsgSize && !env.encryptFails
      ensures executed.Some? ==>
                (sent.Some? <==> !env.encryptFails && (if executed.value.Ok? then |executed.value.value| else 0) + 44 <= env.maxMsgSize)
      ensures request.Some? && request.value.hdr.op == RDMA_ERR ==> (sent.Some? <==> !env.encryptFails && 44 <= env.maxMsgSize)
    {
      sent, executed := None, None;
      if request.None? { return; } // does not decrypt
      var m := request.value;
      if m.hdr.op == RDMA_ERR {
        var hdr := GetNextSeq(m.hdr, RDMA_ERR);
        sent := SendEncryptedResponse(hdr, [], env);
        Terminate();
        return;
      }
      var valid := IsSeqValid(m.hdr);
      if !valid { return; }
      var op, value := m.hdr.op, [];
      if m.hdr.op == RDMA_GET {
        var found := store.Get(m.key);
        if found.None? { op := RDMA_ERR; } else { value := found.value; }
      } else if m.hdr.op == RDMA_PUT {
        var ret := store.Put(m.key, m.value, env.putFails);
        if ret < 0 { op := RDMA_ERR; }
      } else {
        var ret := store.Delete(m.key);
        if ret < 0 { op := RDMA_ERR; }
      }
      executed := Some(KvCall(old(store.entries), m, env.putFails).1);
      var hdr := GetNextSeq(m.hdr, op);
      sent := SendEncryptedResponse(hdr, value, env);
    }
  }

  // ---- reordering --------------------------------------------------------------------------

  /** The window over a whole run: deliveries `order[t]` are ordinals of a client that started
      at `start`; true when none is rejected. */
  predicate AllAccepted(start: SeqNumber, next: SeqNumber, order: seq<nat>)
    decreases |order|
  {
    order == [] ||
    var s := Numbered(start, order[0]);
    InWindow(next, s) && AllAccepted(start, Expected(s), order[1..])
  }

  /** The number expected at the end of a run, rejected requests leaving it alone. */
  function NextAfter(start: SeqNumber, next: SeqNumber, order: seq<nat>): SeqNumber
    decreases |order|
  {
    if order == [] then next else
    var s := Numbered(start, order[0]);
    NextAfter(start, if InWindow(next, s) then Expected(s) else next, order[1..])
  }

  function Range(from: nat, len: nat): seq<nat> { seq(len, i requires 0 <= i => from + i) }

  /** In-order delivery is accepted for ever, across the wrap at 2^54 and the zero that stands
      for "not synchronised", and the expectation tracks the client's following request. */
  lemma {:induction false} InOrderForever(start: SeqNumber, first: nat, len: nat, next: SeqNumber)
    requires next == 0 || next == Numbered(start, first)
    ensures AllAccepted(start, next, Range(first, len))
    ensures len > 0 ==> NextAfter(start, next, Range(first, len)) == Numbered(start, first + len)
    decreases len
  {
    if len > 0 {
      NumberedFacts(start, first);
      assert Range(first, len)[1..] == Range(first + 1, len - 1);
      InOrderForever(start, first + 1, len - 1, Numbered(start, first + 1));
      if len == 1 { assert Range(first + 1, 0) == []; }
    }
  }

  /** A permutation that moves no request more than `d` positions away from its place. */
  predicate Shuffled(order: seq<nat>, d: nat) {
    && (forall t | 0 <= t < |order| :: order[t] < |order| && order[t] <= t + d && t <= order[t] + d)
    && (forall t, u | 0 <= t < u < |order| :: order[t] != order[u])
  }

  /** How often the counter has wrapped when it gives out the n-th number. */
  function Lap(start: SeqNumber, n: nat): nat { (start + 2 * n) / SEQ_SPAN }

  /** The thread expects ordinal `e` and the nearby `q` comes: no wrap lies between them, or
      the number of `e` happens to be the zero that stands for "not synchronised". */
  predicate Meets(start: SeqNumber, e: nat, q: nat) {
    Lap(start, e) == Lap(start, q) || Numbered(start, e) == 0
  }

  /** Every delivery meets the expectation its predecessor left. */
  predicate Undivided(start: SeqNumber, e: nat, order: seq<nat>)
    decreases |order|
  {
    order != [] ==> Meets(start, e, order[0]) && Undivided(start, order[0] + 1, order[1..])
  }

  /** Acceptance of a request at most 64 positions from the expected one, at any point of any
      lap; on one lap that distance is the whole condition. */
  lemma WindowExact(start: SeqNumber, e: nat, q: nat)
    ensures -64 <= q - e <= 64 ==> (InWindow(Numbered(start, e), Numbered(start, q)) <==> Meets(start, e, q))
    ensures Lap(start, e) == Lap(start, q) && Numbered(start, e) != 0 ==>
              (InWindow(Numbered(start, e), Numbered(start, q)) <==> -64 <= q - e <= 64)
  {
    assert start + 2 * e == SEQ_SPAN * Lap(start, e) + Numbered(start, e);
    assert start + 2 * q == SEQ_SPAN * Lap(start, q) + Numbered(start, q);
  }

  /** Induction over the remaining deliveries, the first of them at position `from`. */
  lemma {:induction false} AcceptedFrom(start: SeqNumber, from: nat, e: nat, order: seq<nat>)
    requires forall t | 0 <= t < |order| :: order[t] <= from + t + 32 && from + t <= order[t] + 32
    requires from <= e + 32 && e <= from + 32
    ensures AllAccepted(start, Numbered(start, e), order) <==> Undivided(start, e, order)
    decreases |order|
  {
    if order != [] {
      assert order[0] <= from + 0 + 32 && from + 0 <= order[0] + 32;
      WindowExact(start, e, order[0]);
      NumberedFacts(start, order[0]);
      assert forall t | 0 <= t < |order[1..]| :: order[1..][t] == order[t + 1];
      AcceptedFrom(start, from + 1, order[0] + 1, order[1..]);
    }
  }

  /** Requests moved by at most 32 positions are all accepted exactly when no two successive
      deliveries lie on different sides of a wrap. */
  lemma ReorderExact(start: SeqNumber, order: seq<nat>)
    requires Shuffled(order, 32) && order != []
    ensures AllAccepted(start, 0, order) <==> Undivided(start, order[0] + 1, order[1..])
  {
    NumberedFacts(start, order[0]);
    assert forall t | 0 <= t < |order[1..]| :: order[1..][t] == order[t + 1];
    AcceptedFrom(start, 1, order[0] + 1, order[1..]);
  }

  lemma {:induction false} UndividedOnFirstLap(start: SeqNumber, e: nat, order: seq<nat>, n: nat)
    requires start + 2 * n <= SEQ_SPAN && e <= n
    requires forall t | 0 <= t < |order| :: order[t] < n
    ensures Undivided(start, e, order)
    decreases |order|
  {
    if order != [] {
      assert order[0] < n;
      UndividedOnFirstLap(start, order[0] + 1, order[1..], n);
    }
  }

  /** The bound: up to the wrap, displacement by at most 32 positions is always accepted. */
  lemma ReorderBy32Accepted(start: SeqNumber, order: seq<nat>)
    requires Shuffled(order, 32) && start + 2 * |order| <= SEQ_SPAN
    ensures AllAccepted(start, 0, order)
  {
    if order != [] {
      ReorderExact(start, order);
      UndividedOnFirstLap(start, order[0] + 1, order[1..], |order|);
    }
  }

  /** 34 deliveries one place early, the first request at place 33, then the last at place 34. */
  function Reordered33(): (order: seq<nat>)
    ensures |order| == 68 && order[33] == 0 && order[34] == 67
    ensures Shuffled(order, 33)
  {
    seq(68, t requires 0 <= t < 68 => if t < 33 then t + 1 else if t == 33 then 0 else if t == 34 then 67 else t - 1)
  }

  lemma {:induction false} AcceptedPrefix(start: SeqNumber, next: SeqNumber, order: seq<nat>, t: nat)
    requires t < |order| && AllAccepted(start, next, order)
    ensures t == 0 ==> InWindow(next, Numbered(start, order[0]))
    ensures t > 0 ==> InWindow(Expected(Numbered(start, order[t - 1])), Numbered(start, order[t]))
    decreases t
  {
    if t > 0 {
      AcceptedPrefix(start, Expected(Numbered(start, order[0])), order[1..], t - 1);
    }
  }

  /** `n` requests in order, the last two exchanged. */
  function Exchanged(n: nat): (order: seq<nat>)
    requires n >= 2
    ensures |order| == n && order[n - 2] == n - 1 && order[n - 1] == n - 2
    ensures Shuffled(order, 1)
  {
    seq(n, t requires 0 <= t < n => if t == n - 2 then n - 1 else if t == n - 1 then n - 2 else t)
  }

  lemma ShuffledMore(order: seq<nat>, d: nat, e: nat)
    requires Shuffled(order, d) && d <= e
    ensures Shuffled(order, e)
  {
  }

  lemma EarlyRejected(start: SeqNumber)
    requires start + 2 * 68 <= SEQ_SPAN
    ensures !AllAccepted(start, 0, Reordered33())
  {
    var order := Reordered33();
    var first, last := Numbered(start, order[33]), Numbered(start, order[34]);
    assert Expected(first) == start + 2 && last == start + 134;
    assert !InWindow(Expected(first), last);
    if AllAccepted(start, 0, order) {
      AcceptedPrefix(start, 0, order, 34);
    }
  }

  /** The last number before the wrap and the first behind it, exchanged. */
  lemma ExchangeRejected(start: SeqNumber, w: nat)
    requires w == (SEQ_SPAN - start + 1) / 2
    ensures !AllAccepted(start, 0, Exchanged(w + 1))
  {
    if AllAccepted(start, 0, Exchanged(w + 1)) {
      AcceptedPrefix(start, 0, Exchanged(w + 1), w);
    }
  }

  /** The bound is tight: wherever a client starts, some shuffle by 33 positions of its first few
      requests loses one. Near the wrap an exchange of neighbours is enough. */
  lemma ReorderBy33Rejected(start: SeqNumber)
    ensures exists order :: |order| <= 69 && Shuffled(order, 33) && !AllAccepted(start, 0, order)
  {
    hide AllAccepted;
    if start + 2 * 68 <= SEQ_SPAN {
      EarlyRejected(start);
      assert Shuffled(Reordered33(), 33);
    } else {
      var w := (SEQ_SPAN - start + 1) / 2;
      ExchangeRejected(start, w);
      ShuffledMore(Exchanged(w + 1), 1, 33);
    }
  }

  /** At the wrap one exchange of neighbours is enough: with an even start the number before
      the zero may be overtaken, with an odd one the last number may not come early. */
  lemma SwapAtWrapRejected()
    ensures Shuffled([0, 2, 1], 1) && !AllAccepted(SEQ_SPAN - 4, 0, [0, 2, 1])
    ensures Shuffled([1, 0], 1) && !AllAccepted(SEQ_SPAN - 3, 0, [1, 0])
  {
    assert [0, 2, 1][1..] == [2, 1] && [1, 0][1..] == [0];
  }

  // ---- replays -----------------------------------------------------------------------------

  /** A request delivered again right after its execution is executed again, unless its number
      is the very last one before the wrap. */
  lemma HandledAgain(id: ClientId, t: Thread, kv: Store, m: Message, env: Surroundings, env': Surroundings)
    requires Handle(id, t, kv, m, env).executed.Some?
    ensures var h := Handle(id, t, kv, m, env);
            Handle(id, h.thread, h.kv, m, env').executed.Some? <==> m.hdr.num + 2 <= SEQ_SPAN
  {
    hide KvCall;
  }

  /** The reply to an executed request, handed back at once, is executed too if it reports
      success, on the empty key: a put's reply stores the empty value there. */
  lemma ReplyHandled(id: ClientId, t: Thread, kv: Store, m: Message, env: Surroundings, env': Surroundings)
    requires Handle(id, t, kv, m, env).executed.Some?
    ensures var h := Handle(id, t, kv, m, env);
            var h' := Handle(id, h.thread, h.kv, ReplyTo(m.hdr, h.executed.value), env');
            && (h'.executed.Some? <==> h.executed.value.Ok?)
            && h'.kv - {[]} == h.kv - {[]}
            && (h'.executed.Some? && m.hdr.op == RDMA_PUT && !env'.putFails ==> h'.kv == h.kv[[] := []])
  {
  }

  /** The window for any two requests at most 2^53 apart. It admits the second if zero is
      expected, or if both lie on one lap at most 64 apart, or if they are so far apart across a
      wrap that the numbers are about to recur. */
  lemma WindowAnywhere(start: SeqNumber, e: nat, q: nat)
    requires -MAX_REQUESTS <= e - q <= MAX_REQUESTS
    ensures var d := if e < q then q - e else e - q;
            InWindow(Numbered(start, e), Numbered(start, q)) <==>
            Numbered(start, e) == 0 || if Lap(start, e) == Lap(start, q) then d <= 64 else MAX_REQUESTS - d <= 64
  {
    assert start + 2 * e == SEQ_SPAN * Lap(start, e) + Numbered(start, e);
    assert start + 2 * q == SEQ_SPAN * Lap(start, q) + Numbered(start, q);
  }

  /** After the first `n` requests in order, the q-th is accepted once more exactly if it is one
      of the last 64 and no wrap came since, or zero happens to be expected, or the numbers are
      about to recur. */
  lemma ReplayExact(start: SeqNumber, n: nat, q: nat)
    requires q < n <= MAX_REQUESTS
    ensures InWindow(NextAfter(start, 0, Range(0, n)), Numbered(start, q)) <==>
            Numbered(start, n) == 0 ||
            if Lap(start, n) == Lap(start, q) then n - q <= 64 else MAX_REQUESTS - (n - q) <= 64
    ensures start + 2 * n < SEQ_SPAN ==>
              (InWindow(NextAfter(start, 0, Range(0, n)), Numbered(start, q)) <==> n - q <= 64)
  {
    InOrderForever(start, 0, n, 0);
    WindowAnywhere(start, n, q);
  }

  /** The last delivery of a run that the window let through. */
  function LastAccepted(start: SeqNumber, next: SeqNumber, order: seq<nat>): Option<nat>
    decreases |order|
  {
    if order == [] then None else
    var s := Numbered(start, order[0]);
    var later := LastAccepted(start, if InWindow(next, s) then Expected(s) else next, order[1..]);
    if later.Some? then later else if InWindow(next, s) then Some(order[0]) else None
  }

  lemma {:induction false} NextIsLast(start: SeqNumber, next: SeqNumber, order: seq<nat>)
    ensures NextAfter(start, next, order) ==
            match LastAccepted(start, next, order) case Some(a) => Numbered(start, a + 1) case None => next
    decreases |order|
  {
    if order != [] {
      NumberedFacts(start, order[0]);
      var s := Numbered(start, order[0]);
      NextIsLast(start, if InWindow(next, s) then Expected(s) else next, order[1..]);
    }
  }

  lemma {:induction false} LastIsMember(start: SeqNumber, next: SeqNumber, order: seq<nat>)
    ensures var a := LastAccepted(start, next, order); a.Some? ==> a.value in order
    ensures next == 0 && order != [] ==> LastAccepted(start, next, order).Some?
    decreases |order|
  {
    if order != [] {
      var s := Numbered(start, order[0]);
      LastIsMember(start, if InWindow(next, s) then Expected(s) else next, order[1..]);
    }
  }

  /** After any deliveries whatever, with losses, repetitions and rejections, across any wrap: a
      request is accepted exactly according to its distance from the last one accepted. */
  lemma ReplayAfterAnything(start: SeqNumber, order: seq<nat>, q: nat)
    requires order != [] && q < MAX_REQUESTS && forall t | 0 <= t < |order| :: order[t] < MAX_REQUESTS
    ensures LastAccepted(start, 0, order).Some?
    ensures var e := LastAccepted(start, 0, order).value + 1;
            var d := if e < q then q - e else e - q;
            InWindow(NextAfter(start, 0, order), Numbered(start, q)) <==>
            Numbered(start, e) == 0 || if Lap(start, e) == Lap(start, q) then d <= 64 else MAX_REQUESTS - d <= 64
  {
    NextIsLast(start, 0, order);
    LastIsMember(start, 0, order);
    WindowAnywhere(start, LastAccepted(start, 0, order).value + 1, q);
  }

  lemma {:induction false} NextOfAccepted(start: SeqNumber, next: SeqNumber, order: seq<nat>)
    requires AllAccepted(start, next, order) && order != []
    ensures NextAfter(start, next, order) == Numbered(start, order[|order| - 1] + 1)
    decreases |order|
  {
    NumberedFacts(start, order[0]);
    if |order| == 1 {
      assert order[1..] == [];
    } else {
      NextOfAccepted(start, Numbered(start, order[0] + 1), order[1..]);
    }
  }

  /** After a run shuffled by at most 32 positions: if all of it was accepted, across the wrap or
      not, what counts is the distance to the last delivery; before the wrap nothing else does. */
  lemma ReplayAfterShuffle(start: SeqNumber, order: seq<nat>, q: nat)
    requires Shuffled(order, 32) && q < |order| <= MAX_REQUESTS
    ensures var e := order[|order| - 1] + 1;
            var d := if e < q then q - e else e - q;
            AllAccepted(start, 0, order) ==>
              (InWindow(NextAfter(start, 0, order), Numbered(start, q)) <==>
               Numbered(start, e) == 0 || if Lap(start, e) == Lap(start, q) then d <= 64 else MAX_REQUESTS - d <= 64)
    ensures start + 2 * |order| < SEQ_SPAN ==>
              (InWindow(NextAfter(start, 0, order), Numbered(start, q)) <==> order[|order| - 1] + 1 - q <= 64)
  {
    var last := order[|order| - 1];
    assert last < |order| && |order| - 1 <= last + 32;
    if start + 2 * |order| <= SEQ_SPAN { ReorderBy32Accepted(start, order); }
    if AllAccepted(start, 0, order) { NextOfAccepted(start, 0, order); }
    hide AllAccepted, NextAfter;
    WindowAnywhere(start, last + 1, q);
  }
}

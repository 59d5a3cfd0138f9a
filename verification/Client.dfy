/** The client: its ring of pending requests and the continuation that handles responses, in
    `PendingRequestQueue.cpp`, `sent_message_tag.cpp` and `Client.cpp`. */
module Clients {
  import opened SeqOps
  import opened Messages

  datatype Ret = OP_SUCCESS | OP_FAILED | TIMEOUT | INVALID_RESPONSE

  /** One slot of the ring. `value` and `len` are the caller's pointers, named by number. */
  datatype Tag = Tag(valid: bool, hdr: SeqOp, value: Option<nat>, len: Option<nat>, user: nat, callback: bool)

  const FREE_TAG := Tag(false, SeqOp(0, 0, 0), None, None, 0, false)

  type Ring = s: seq<Tag> | |s| == RING_SIZE witness seq(RING_SIZE, i => FREE_TAG)

  /** The client's own state and the caller's memory its pointers lead to. */
  datatype Client = Client(cur: SeqOp, slots: Ring, mem: map<nat, Bytes>, lens: map<nat, nat>)

  /** A request leaving the ring: what the callback is told, and what the caller's buffer and
      length hold at that moment. `called` is false for a null callback. */
  datatype Completion = Completion(hdr: SeqOp, user: nat, called: bool, ret: Ret, seen: Option<Bytes>, len: Option<nat>)

  /** A call of get, put, del or send_disconnect_message, told apart by `op`. */
  datatype Call = Call(op: OpCode, key: Bytes, value: Bytes, dest: Option<nat>, len: Option<nat>, user: nat, callback: bool)
  {
    predicate Valid() {
      && (op != RDMA_PUT ==> value == [])
      && (op != RDMA_GET ==> dest == None && len == None)
      && (op == RDMA_ERR ==> key == [])
    }
  }

  /** What lies in a response buffer when its continuation runs: a message that decrypts, or
      one that does not. In the second case decryption may have written any bytes to the
      caller's buffer, and the header on the stack holds any number. */
  datatype Arrival = Genuine(m: Message) | Garbage(bytes: Bytes, number: SeqOp)

  // ---- steps as functions ------------------------------------------------------------------

  function Read(mem: map<nat, Bytes>, buffer: nat): Bytes { if buffer in mem then mem[buffer] else [] }

  /** Copying `bytes` to the front of a buffer. */
  function Overlay(buffer: Bytes, bytes: Bytes): (r: Bytes)
    ensures bytes <= r
  {
    if |bytes| < |buffer| then bytes + buffer[|bytes|..] else bytes
  }

  function WriteValue(c: Client, dest: Option<nat>, bytes: Bytes): Client {
    if dest.None? || bytes == [] then c
    else c.(mem := c.mem[dest.value := Overlay(Read(c.mem, dest.value), bytes)])
  }

  function WriteLen(c: Client, dest: Option<nat>, n: nat): Client {
    if dest.None? then c else c.(lens := c.lens[dest.value := n])
  }

  function Invalidated(c: Client, i: nat): Client
    requires i < RING_SIZE
  {
    c.(slots := c.slots[i := c.slots[i].(valid := false)])
  }

  function Report(t: Tag, mem: map<nat, Bytes>, lens: map<nat, nat>, ret: Ret): Completion {
    Completion(t.hdr, t.user, t.callback, ret,
               if t.value.None? then None else Some(Read(mem, t.value.value)),
               if t.len.None? || t.len.value !in lens then None else Some(lens[t.len.value]))
  }

  function CompletionOf(c: Client, i: nat, ret: Ret): Completion
    requires i < RING_SIZE
  {
    Report(c.slots[i], c.mem, c.lens, ret)
  }

  datatype Effect = Effect(client: Client, done: Option<Completion>)

  function Arrived(c: Client, ret: Ret, x: SeqOp): Effect {
    var i := x.Prev().RingIndex();
    if c.slots[i].valid then Effect(Invalidated(c, i), Some(CompletionOf(c, i, ret))) else Effect(c, None)
  }

  /** The continuation, run with a pointer to slot `i`. */
  function Continue(c: Client, i: nat, a: Arrival): Effect
    requires i < RING_SIZE
  {
    var t := c.slots[i];
    match a
    case Garbage(bytes, number) => Arrived(WriteValue(c, t.value, bytes), INVALID_RESPONSE, number)
    case Genuine(m) =>
      var c1 := WriteValue(c, t.value, m.value);
      if !m.hdr.SameBase(t.hdr.Next()) then Effect(c1, None)
      else if m.hdr.op != t.hdr.op then Arrived(c1, OP_FAILED, m.hdr)
      else Arrived(WriteLen(c1, t.len, |m.value|), OP_SUCCESS, m.hdr)
  }

  predicate QueueFull(c: Client) { c.slots[c.cur.RingIndex()].valid }

  /** The slot of the next number filled in for a call. A disconnect leaves the value pointer
      of the slot's former request in place. */
  function Prepared(c: Client, call: Call): Client {
    var i := c.cur.RingIndex();
    var value := if call.op == RDMA_ERR then c.slots[i].value else call.dest;
    c.(slots := c.slots[i := Tag(true, c.cur.SetOp(call.op), value, call.len, call.user, call.callback)])
  }

  /** A call whose message was encrypted and handed to the transport. */
  function Sent(c: Client, call: Call): Client {
    Prepared(c, call).(cur := c.cur.Next().Next())
  }

  /** A call whose encryption failed: the slot is given back, the number is not used up. */
  function Unsent(c: Client, call: Call): Client {
    Invalidated(Prepared(c, call), c.cur.RingIndex())
  }

  function RequestOf(c: Client, call: Call): Message {
    Message(c.cur.SetOp(call.op), call.key, call.value)
  }

  // ---- runs of the event loop --------------------------------------------------------------

  datatype Response = Response(slot: nat, arrival: Arrival)
  type Batch = b: seq<Response> | forall i | 0 <= i < |b| :: b[i].slot < RING_SIZE

  datatype Effects = Effects(client: Client, done: seq<Completion>)

  function Appended(e: Effects, f: Effect): Effects {
    Effects(f.client, if f.done.Some? then e.done + [f.done.value] else e.done)
  }

  /** One run of the event loop handles the responses of a batch in order. */
  function RunOnce(e: Effects, b: Batch): (r: Effects)
    ensures r.client.cur == e.client.cur
    decreases |b|
  {
    if b == [] then e else
    var r := RunOnce(e, b[..|b| - 1]);
    var last := b[|b| - 1];
    Appended(r, Continue(r.client, last.slot, last.arrival))
  }

  function RunLoop(e: Effects, loop: seq<Batch>): (r: Effects)
    ensures r.client.cur == e.client.cur
    decreases |loop|
  {
    if loop == [] then e else RunOnce(RunLoop(e, loop[..|loop| - 1]), loop[|loop| - 1])
  }

  /** The first `used` event loops of a wait all began with the slot taken. */
  predicate Waited(e: Effects, loop: seq<Batch>, used: nat) {
    used <= |loop| && forall k | 0 <= k < used :: QueueFull(RunLoop(e, loop[..k]).client)
  }

  /** Timing out the valid slots among `count` slots from `i` on, cyclically. */
  function Drained(e: Effects, i: nat, count: nat): Effects
    requires i < RING_SIZE
    decreases count
  {
    if count == 0 then e else
    var e' := if e.client.slots[i].valid
              then Effects(Invalidated(e.client, i), e.done + [CompletionOf(e.client, i, TIMEOUT)]) else e;
    Drained(e', (i + 1) % RING_SIZE, count - 1)
  }

  // ---- what the steps change, and what they leave alone ------------------------------------

  /** A buffer of the caller is as it was. */
  predicate SameBuffer(c: Client, c': Client, b: nat) {
    (b in c'.mem <==> b in c.mem) && (b in c.mem ==> c'.mem[b] == c.mem[b])
  }

  predicate SameLength(c: Client, c': Client, l: nat) {
    (l in c'.lens <==> l in c.lens) && (l in c.lens ==> c'.lens[l] == c.lens[l])
  }

  /** The bytes decryption writes for an arrival. */
  function BytesOf(a: Arrival): Bytes { match a case Genuine(m) => m.value case Garbage(bytes, _) => bytes }

  lemma WriteMeans(c: Client, dest: Option<nat>, bytes: Bytes, b: nat)
    ensures var c' := WriteValue(c, dest, bytes);
            && (dest != Some(b) || bytes == [] ==> SameBuffer(c, c', b))
            && (dest == Some(b) && bytes != [] ==>
                  var before := if b in c.mem then c.mem[b] else [];
                  && b in c'.mem && bytes <= c'.mem[b]
                  && |c'.mem[b]| == (if |bytes| < |before| then |before| else |bytes|)
                  && forall k | |bytes| <= k < |before| :: c'.mem[b][k] == before[k])
  {
  }

  lemma ContinueMemory(c: Client, i: nat, a: Arrival)
    requires i < RING_SIZE
    ensures Continue(c, i, a).client.mem == WriteValue(c, c.slots[i].value, BytesOf(a)).mem
  {
    hide WriteValue, CompletionOf;
  }

  /** A continuation writes the buffer of its own slot and no other, whether or not its response
      turns out to be wanted: the arriving bytes at the front, what lay behind them unchanged. */
  lemma ContinueBuffers(c: Client, i: nat, a: Arrival, b: nat)
    requires i < RING_SIZE
    ensures var c', bytes := Continue(c, i, a).client, BytesOf(a);
            && (c.slots[i].value != Some(b) || bytes == [] ==> SameBuffer(c, c', b))
            && (c.slots[i].value == Some(b) && bytes != [] ==>
                  var before := if b in c.mem then c.mem[b] else [];
                  && b in c'.mem && bytes <= c'.mem[b]
                  && |c'.mem[b]| == (if |bytes| < |before| then |before| else |bytes|)
                  && forall k | |bytes| <= k < |before| :: c'.mem[b][k] == before[k])
  {
    ContinueMemory(c, i, a);
    WriteMeans(c, c.slots[i].value, BytesOf(a), b);
    hide Continue, WriteValue;
  }

  /** It writes the length of its own slot and no other, and that only on success. */
  lemma ContinueLengths(c: Client, i: nat, a: Arrival, l: nat)
    requires i < RING_SIZE
    ensures var c', t := Continue(c, i, a).client, c.slots[i];
            var succeeds := a.Genuine? && a.m.hdr == SeqOp((t.hdr.num + 1) % SEQ_SPAN, t.hdr.id, t.hdr.op);
            && (!succeeds || t.len != Some(l) ==> SameLength(c, c', l))
            && (succeeds && t.len == Some(l) ==> l in c'.lens && c'.lens[l] == |a.m.value|)
  {
  }

  /** What a continuation reports, and where: INVALID_RESPONSE, at the slot of the number before
      the one found, for bytes that do not decrypt; nothing for a message that is not the answer to
      the slot's request; otherwise success or failure by the operation, at the slot of the number
      before the answer's. Nothing is reported where that slot is free. */
  lemma ContinueReports(c: Client, i: nat, a: Arrival)
    requires i < RING_SIZE
    ensures var e, t := Continue(c, i, a), c.slots[i];
            var x := if a.Garbage? then a.number else a.m.hdr;
            var unwanted := a.Genuine? && (x.num != (t.hdr.num + 1) % SEQ_SPAN || x.id != t.hdr.id);
            var k := (x.num + SEQ_SPAN - 1) % SEQ_SPAN / 2 % 1024;
            var ends := !unwanted && c.slots[k].valid;
            && e.client.cur == c.cur
            && e.client.slots == (if ends then c.slots[k := c.slots[k].(valid := false)] else c.slots)
            && (e.done.Some? <==> ends)
            && (ends ==>
                  && e.done.value.hdr == c.slots[k].hdr && e.done.value.user == c.slots[k].user
                  && e.done.value.called == c.slots[k].callback
                  && e.done.value.ret == if a.Garbage? then INVALID_RESPONSE else if x.op == t.hdr.op then OP_SUCCESS else OP_FAILED)
  {
    hide WriteValue, WriteLen, Arrived;
    var c1 := WriteValue(c, c.slots[i].value, BytesOf(a));
    WritesOnly(c, c.slots[i].value, BytesOf(a));
    match a
    case Garbage(bytes, number) =>
      ArrivedEnds(c1, INVALID_RESPONSE, number);
    case Genuine(m) =>
      LenWritesOnly(c1, c.slots[i].len, |m.value|);
      ArrivedEnds(c1, OP_FAILED, m.hdr);
      ArrivedEnds(WriteLen(c1, c.slots[i].len, |m.value|), OP_SUCCESS, m.hdr);
  }

  lemma ArrivedEnds(c: Client, ret: Ret, x: SeqOp)
    ensures var e, k := Arrived(c, ret, x), (x.num + SEQ_SPAN - 1) % SEQ_SPAN / 2 % 1024;
            && e.client.cur == c.cur
            && e.client.slots == (if c.slots[k].valid then c.slots[k := c.slots[k].(valid := false)] else c.slots)
            && (e.done.Some? <==> c.slots[k].valid)
            && (c.slots[k].valid ==>
                  && e.done.value.hdr == c.slots[k].hdr && e.done.value.user == c.slots[k].user
                  && e.done.value.called == c.slots[k].callback && e.done.value.ret == ret)
  {
  }

  lemma WritesOnly(c: Client, dest: Option<nat>, bytes: Bytes)
    ensures WriteValue(c, dest, bytes).slots == c.slots && WriteValue(c, dest, bytes).cur == c.cur
  {
  }

  lemma LenWritesOnly(c: Client, dest: Option<nat>, n: nat)
    ensures WriteLen(c, dest, n).slots == c.slots && WriteLen(c, dest, n).cur == c.cur && WriteLen(c, dest, n).mem == c.mem
  {
  }

  /** A completion shows the slot's own buffer and length as they are when the callback is made. */
  lemma ReportShows(c: Client, i: nat, ret: Ret)
    requires i < RING_SIZE
    ensures var d, t := CompletionOf(c, i, ret), c.slots[i];
            && d.hdr == t.hdr && d.user == t.user && d.called == t.callback && d.ret == ret
            && (d.seen.Some? <==> t.value.Some?)
            && (t.value.Some? && t.value.value in c.mem ==> d.seen == Some(c.mem[t.value.value]))
            && (t.len.Some? && t.len.value in c.lens ==> d.len == Some(c.lens[t.len.value]))
  {
  }

  /** What a call leaves behind: its request in the slot of the number, valid if it was sent and
      free if encryption failed; the number moved on by two, or not; nothing else. */
  lemma CallLeaves(c: Client, call: Call, sent: bool)
    ensures var c', i := if sent then Sent(c, call) else Unsent(c, call), c.cur.num / 2 % 1024;
            && c'.mem == c.mem && c'.lens == c.lens
            && c'.cur == (if sent then SeqOp((c.cur.num + 2) % SEQ_SPAN, c.cur.id, c.cur.op) else c.cur)
            && (forall k | 0 <= k < 1024 && k != i :: c'.slots[k] == c.slots[k])
            && c'.slots[i].valid == sent && c'.slots[i].hdr == SeqOp(c.cur.num, c.cur.id, call.op)
            && c'.slots[i].value == (if call.op == RDMA_ERR then c.slots[i].value else call.dest)
            && c'.slots[i].len == call.len && c'.slots[i].user == call.user && c'.slots[i].callback == call.callback
  {
  }

  /** A drain frees slots and makes callbacks; number, buffers, lengths and the rest of the slots stay. */
  lemma {:induction false} DrainLeaves(e: Effects, i: nat, count: nat)
    requires i < RING_SIZE
    ensures var c, c' := e.client, Drained(e, i, count).client;
            && c'.cur == c.cur && c'.mem == c.mem && c'.lens == c.lens
            && forall k | 0 <= k < 1024 :: c'.slots[k].(valid := c.slots[k].valid) == c.slots[k]
    decreases count
  {
    if count > 0 {
      var e' := if e.client.slots[i].valid
                then Effects(Invalidated(e.client, i), e.done + [CompletionOf(e.client, i, TIMEOUT)]) else e;
      DrainLeaves(e', (i + 1) % RING_SIZE, count - 1);
    }
  }

  // ---- the client as it runs ---------------------------------------------------------------

  class ClientEndpoint {
    var currentSeqOp: SeqOp
    const queue: array<Tag>
    var mem: map<nat, Bytes>
    var lens: map<nat, nat>
    var completions: seq<Completion> // the callbacks made, oldest first

    ghost predicate Valid()
      reads this
    {
      queue.Length == RING_SIZE
    }

    ghost function State(): Client
      requires Valid()
      reads this, queue
    {
      Client(currentSeqOp, queue[..], mem, lens)
    }

    ghost function History(): Effects
      requires Valid()
      reads this, queue
    {
      Effects(State(), completions)
    }

    /** The counter starts at random bits, with the ID written over them. */
    constructor (id: ClientId, random: U64)
      ensures Valid() && fresh(queue)
      ensures currentSeqOp == SeqOp(Unpack(random).num, id, 0)
      ensures forall i | 0 <= i < RING_SIZE :: !queue[i].valid
      ensures mem == map[] && lens == map[] && completions == []
    {
      currentSeqOp := SeqOp(Unpack(random).num, id, 0);
      queue := new Tag[RING_SIZE](i => FREE_TAG);
      mem, lens, completions := map[], map[], [];
    }

    method IncSeq()
      modifies this`currentSeqOp
      ensures currentSeqOp == old(currentSeqOp).Next().Next()
      ensures currentSeqOp == old(currentSeqOp).(num := (old(currentSeqOp).num + 2) % SEQ_SPAN)
    {
      currentSeqOp := currentSeqOp.Next().Next();
    }

    method Invalidate(i: nat, ret: Ret)
      requires Valid() && i < RING_SIZE
      modifies this`completions, queue
      ensures Valid()
      ensures queue[i] == old(queue[i]).(valid := false) && forall k | 0 <= k < RING_SIZE && k != i :: queue[k] == old(queue[k])
      ensures History() == Effects(Invalidated(old(State()), i), old(completions) + [CompletionOf(old(State()), i, ret)])
    {
      var t := queue[i];
      queue[i] := t.(valid := false);
      completions := completions + [Report(t, mem, lens, ret)];
      assert queue[..] == old(queue[..])[i := t.(valid := false)];
    }

    method MessageArrived(ret: Ret, x: SeqOp)
      requires Valid()
      modifies this`completions, queue
      ensures Valid()
      ensures History() == Appended(old(History()), Arrived(old(State()), ret, x))
    {
      var i := x.Prev().RingIndex();
      if !queue[i].valid { return; }
      Invalidate(i, ret);
    }

    method DecryptContFunc(i: nat, a: Arrival)
      requires Valid() && i < RING_SIZE
      modifies this`completions, this`mem, this`lens, queue
      ensures Valid()
      ensures History() == Appended(old(History()), Continue(old(State()), i, a))
      ensures forall b: nat | old(queue[i]).value != Some(b) :: SameBuffer(old(State()), State(), b)
      ensures forall l: nat | old(queue[i]).len != Some(l) :: SameLength(old(State()), State(), l)
    {
      var t := queue[i];
      var bytes := if a.Garbage? then a.bytes else a.m.value;
      if t.value.Some? && bytes != [] {
        mem := mem[t.value.value := Overlay(Read(mem, t.value.value), bytes)];
      }
      if a.Garbage? {
        MessageArrived(INVALID_RESPONSE, a.number);
        return;
      }
      if !a.m.hdr.SameBase(t.hdr.Next()) { return; }
      if a.m.hdr.op != t.hdr.op {
        MessageArrived(OP_FAILED, a.m.hdr);
        return;
      }
      if t.len.Some? {
        lens := lens[t.len.value := |a.m.value|];
      }
      MessageArrived(OP_SUCCESS, a.m.hdr);
    }

    method RunEventLoopOnce(batch: Batch)
      requires Valid()
      modifies this`completions, this`mem, this`lens, queue
      ensures Valid()
      ensures History() == RunOnce(old(History()), batch)
    {
      var k := 0;
      while k < |batch|
        invariant k <= |batch| && Valid()
        invariant History() == RunOnce(old(History()), batch[..k])
      {
        DecryptContFunc(batch[k].slot, batch[k].arrival);
        assert batch[..k + 1][..k] == batch[..k];
        k := k + 1;
      }
      assert batch[..k] == batch;
    }

    method Validate(call: Call)
      requires Valid()
      modifies queue
      ensures State() == Prepared(old(State()), call)
    {
      var i := currentSeqOp.RingIndex();
      var value := if call.op == RDMA_ERR then queue[i].value else call.dest;
      queue[i] := Tag(true, currentSeqOp.SetOp(call.op), value, call.len, call.user, call.callback);
      assert queue[..] == Prepared(old(State()), call).slots;
    }

    /** The wait for the slot of the next number, then its use for `call`. Iteration k of the
        event loop brings `loop[k]`; no slot is returned when the loop would go on waiting.
        The wait goes on only while the slot is taken. */
    method PrepareNewRequest(call: Call, loop: seq<Batch>) returns (slot: Option<nat>, used: nat)
      requires Valid()
      modifies this`completions, this`mem, this`lens, queue
      ensures Valid() && Waited(old(History()), loop, used)
      ensures var e := RunLoop(old(History()), loop[..used]);
              && (slot.None? <==> QueueFull(e.client))
              && History() == (if slot.None? then e else e.(client := Prepared(e.client, call)))
      ensures slot.None? ==> used == |loop|
      ensures slot.Some? ==> slot.value == old(currentSeqOp).RingIndex()
    {
      hide RunOnce, Prepared;
      var i := currentSeqOp.RingIndex();
      used := 0;
      assert loop[..0] == [];
      while queue[i].valid && used < |loop|
        invariant used <= |loop| && Valid() && currentSeqOp == old(currentSeqOp)
        invariant History() == RunLoop(old(History()), loop[..used])
        invariant forall k | 0 <= k < used :: QueueFull(RunLoop(old(History()), loop[..k]).client)
      {
        RunEventLoopOnce(loop[used]);
        assert loop[..used + 1][..used] == loop[..used];
        used := used + 1;
      }
      if queue[i].valid { return None, used; }
      Validate(call);
      return Some(i), used;
    }

    /** get, put, del and send_disconnect_message: prepare, encrypt, then either hand the
        request to the transport under the next number or give the slot back. */
    method Request(call: Call, encryptFails: bool, loop: seq<Batch>) returns (ret: int, request: Option<Message>)
      requires Valid() && call.Valid()
      modifies this, queue
      ensures Valid()
      ensures request.Some? <==> ret == 0
      ensures exists used: nat | Waited(old(History()), loop, used) ::
                var e := RunLoop(old(History()), loop[..used]);
                if QueueFull(e.client) then used == |loop| && request == None && History() == e
                else if encryptFails then request == None && History() == e.(client := Unsent(e.client, call))
                else request == Some(RequestOf(e.client, call)) && History() == e.(client := Sent(e.client, call))
    {
      var slot, used := PrepareNewRequest(call, loop);
      ghost var e := RunLoop(old(History()), loop[..used]);
      if slot.None? { return -1, None; }
      if encryptFails {
        queue[slot.value] := queue[slot.value].(valid := false);
        assert queue[..] == Unsent(e.client, call).slots;
        return -1, None;
      }
      request := Some(Message(queue[slot.value].hdr, call.key, call.value));
      IncSeq();
      ret := 0;
      assert History() == e.(client := Sent(e.client, call));
    }

    method InvalidateAllRequests()
      requires Valid()
      modifies this`completions, queue
      ensures Valid()
      ensures History() == Drained(old(History()), old(currentSeqOp).RingIndex(), RING_SIZE)
    {
      var index: nat := currentSeqOp.RingIndex();
      var i: nat := 0;
      while i < RING_SIZE
        invariant i <= RING_SIZE && index < RING_SIZE && Valid()
        invariant Drained(History(), index, RING_SIZE - i) ==
                  Drained(old(History()), old(currentSeqOp).RingIndex(), RING_SIZE)
      {
        if queue[index].valid {
          Invalidate(index, TIMEOUT);
        }
        index := (index + 1) % RING_SIZE;
        i := i + 1;
      }
    }

    method IsQueueFull() returns (full: bool)
      requires Valid()
      ensures full <==> QueueFull(State())
    {
      full := queue[currentSeqOp.RingIndex()].valid;
    }
  }
}

/** What the invariant gives for every reachable state of the protocol. */
module ProtocolTheorems {
  import opened SeqOps
  import opened Messages
  import opened Clients
  import opened Histories
  import opened Protocol
  import opened ProtocolProofs

  ghost predicate Reachable(w0: World, w: World) { Initial(w0) && exists steps :: Run(w0, steps, w) }

  lemma ReachableInv(w0: World, w: World)
    requires Reachable(w0, w)
    ensures Inv(w0.kv, w)
  {
    InitialInv(w0);
    var steps :| Run(w0, steps, w);
    RunKeeps(w0.kv, w0, steps, w);
  }

  // ---- safety of the service ---------------------------------------------------------------

  /** Every run is a run of the atomic store: its history is legal, and the server's store is
      what that history makes of the initial one. */
  lemma RunsAreLegal(w0: World, w: World)
    requires Reachable(w0, w)
    ensures Legal(w0.kv, w.log) && w.kv == Replay(w0.kv, w.log)
  {
    ReachableInv(w0, w);
  }

  /** End to end: a success callback of a get, put or delete stands for exactly one execution
      of the request the caller made, between its issue and the callback; a get's buffer and
      length then hold what the store held at the execution. */
  lemma SuccessIsLinearizable(w0: World, w: World, j: nat) returns (h: nat, i: nat)
    requires Reachable(w0, w) && j < |w.log| && w.log[j].Done?
    requires w.log[j].done.hdr.op != RDMA_ERR && w.log[j].done.ret == OP_SUCCESS
    ensures h < i < j && w.log[h].Issue? && w.log[i].Exec? && w.log[h].x == w.log[i].m.hdr == w.log[j].done.hdr
    ensures forall i' | 0 <= i' < |w.log| && w.log[i'].Exec? && w.log[i'].m.hdr.SameBase(w.log[j].done.hdr) :: i' == i
    ensures var call, d := w.log[h].call, w.log[j].done;
            var before, after := Replay(w0.kv, w.log[..i]), Replay(w0.kv, w.log[..i + 1]);
            && call.user == d.user && call.op == d.hdr.op
            && (call.op == RDMA_GET ==>
                  call.key in before && after == before && Delivered(d, call, before[call.key]))
            && (call.op == RDMA_PUT ==> after == before[call.key := call.value])
            && (call.op == RDMA_DELETE ==> call.key in before && after == before - {call.key})
  {
    RunsAreLegal(w0, w);
    h, i := Linearization(w0.kv, w.log, j);
  }

  /** Issued requests are completed ones plus valid slots; none completes twice. */
  lemma Conservation(w0: World, w: World, c: ClientId)
    requires Reachable(w0, w) && c in w.parties
    ensures w.parties[c].count == Completed(w.log, c) + |ValidSlots(w.parties[c].client.slots)|
    ensures forall j, k | 0 <= j < |w.log| && 0 <= k < |w.log| && w.log[j].Done? && w.log[k].Done? &&
                          w.log[j].done.hdr.SameBase(w.log[k].done.hdr) :: j == k
  {
    ReachableInv(w0, w);
    assert PartyOk(c, w.parties[c], w.log);
    forall j, k | 0 <= j < |w.log| && 0 <= k < |w.log| && w.log[j].Done? && w.log[k].Done? &&
                  w.log[j].done.hdr.SameBase(w.log[k].done.hdr)
      ensures j == k
    {
      OneCompletion(w0.kv, w.log, j, k);
    }
  }

  // ---- the ring ----------------------------------------------------------------------------

  /** Issued and not ended. */
  ghost predicate Pending(log: seq<Event>, x: SeqOp) { (exists call :: Issue(x, call) in log) && !DoneIn(log, x) }

  /** A valid slot holds a pending request, the newest with the slot's index: the n-th one, all
      later requests having other slots. Every pending request is in its slot. */
  lemma RingHoldsNewest(w0: World, w: World, c: ClientId, i: nat)
    requires Reachable(w0, w) && c in w.parties && i < RING_SIZE
    ensures var p := w.parties[c];
            var t := p.client.slots[i];
            t.valid ==>
              var n := Ordinal(p.start, t.hdr.num);
              && Pending(w.log, t.hdr) && t.hdr.id == c && t.hdr.num == Numbered(p.start, n) && Slot(p.start, n) == i
              && n < p.count <= n + RING_SIZE
              && forall n' | n < n' < p.count :: Slot(p.start, n') != i
    ensures forall x | Pending(w.log, x) && x.id == c ::
              w.parties[c].client.slots[x.RingIndex()].valid && w.parties[c].client.slots[x.RingIndex()].hdr == x
  {
    ReachableInv(w0, w);
    var p := w.parties[c];
    assert PartyOk(c, p, w.log);
    assert SlotOk(c, p, i, w.log);
    var t := p.client.slots[i];
    if t.valid {
      var n := Ordinal(p.start, t.hdr.num);
      OrdinalInverse(p.start, t.hdr.num);
      NumberedFacts(p.start, n);
      forall n' | n < n' < p.count ensures Slot(p.start, n') != i {
        DifferentSlots(p.start, n, n');
      }
    }
  }

  lemma DifferentSlots(start: SeqNumber, n: nat, m: nat)
    requires n < m < n + RING_SIZE
    ensures Slot(start, n) != Slot(start, m)
  {
  }

  /** The n-th request of a client is issued and not ended. */
  ghost predicate PendingNth(log: seq<Event>, start: SeqNumber, c: ClientId, n: nat) {
    exists x: SeqOp :: x.id == c && x.num == Numbered(start, n) && Pending(log, x)
  }

  lemma FullMeansPending(c: ClientId, p: Party, log: seq<Event>)
    requires PartyOk(c, p, log) && QueueFull(p.client)
    ensures p.count >= RING_SIZE && PendingNth(log, p.start, c, p.count - RING_SIZE)
  {
    var i := p.client.cur.RingIndex();
    assert SlotOk(c, p, i, log);
    var x := p.client.slots[i].hdr;
    var n := Ordinal(p.start, x.num);
    OrdinalInverse(p.start, x.num);
    NumberedFacts(p.start, n);
    NumberedFacts(p.start, p.count);
    if n + RING_SIZE > p.count { DifferentSlots(p.start, n, p.count); }
    assert Pending(log, x);
  }

  lemma PendingMeansFull(c: ClientId, p: Party, log: seq<Event>)
    requires PartyOk(c, p, log) && p.count >= RING_SIZE && PendingNth(log, p.start, c, p.count - RING_SIZE)
    ensures QueueFull(p.client)
  {
    var x: SeqOp :| x.id == c && x.num == Numbered(p.start, p.count - RING_SIZE) && Pending(log, x);
    var call :| Issue(x, call) in log;
    assert p.client.slots[x.RingIndex()].valid;
    SameSlot(p.start, p.count, x);
  }

  lemma SameSlot(start: SeqNumber, count: nat, x: SeqOp)
    requires count >= RING_SIZE && x.num == Numbered(start, count - RING_SIZE)
    ensures x.RingIndex() == Numbered(start, count) / 2 % RING_SIZE
  {
    hide Numbered, Ordinal, OnGrid, Slot, NextNumber;
    NumberedFacts(start, count - RING_SIZE);
    NumberedFacts(start, count);
    SlotPeriod(start, count - RING_SIZE);
  }

  lemma PartyInv(w0: World, w: World, c: ClientId)
    requires Reachable(w0, w) && c in w.parties
    ensures PartyOk(c, w.parties[c], w.log)
  {
    ReachableInv(w0, w);
  }

  /** `queue_full` asks for one request only: the one issued 1024 sends ago. */
  lemma QueueFullMeaning(w0: World, w: World, c: ClientId)
    requires Reachable(w0, w) && c in w.parties
    ensures var p := w.parties[c];
            QueueFull(p.client) <==> p.count >= RING_SIZE && PendingNth(w.log, p.start, c, p.count - RING_SIZE)
  {
    hide *;
    var p := w.parties[c];
    PartyInv(w0, w, c);
    if QueueFull(p.client) { FullMeansPending(c, p, w.log); }
    if p.count >= RING_SIZE && PendingNth(w.log, p.start, c, p.count - RING_SIZE) { PendingMeansFull(c, p, w.log); }
  }

  /** Whatever is pending is pending up to the newest request: requests ended in issue order. */
  ghost predicate EndedInOrder(log: seq<Event>, c: ClientId, p: Party) {
    forall n: nat, m: nat | PendingNth(log, p.start, c, n) && n <= m < p.count :: PendingNth(log, p.start, c, m)
  }

  ghost predicate AllPending(log: seq<Event>, c: ClientId, p: Party) {
    p.count >= RING_SIZE && forall n: nat | n < p.count <= n + RING_SIZE :: PendingNth(log, p.start, c, n)
  }

  lemma PendingIsRecent(c: ClientId, p: Party, log: seq<Event>, n: nat)
    requires PartyOk(c, p, log) && PendingNth(log, p.start, c, n) && n < p.count
    ensures p.count <= n + RING_SIZE
  {
    var x: SeqOp :| x.id == c && x.num == Numbered(p.start, n) && Pending(log, x);
    var call :| Issue(x, call) in log;
    NumberedFacts(p.start, n);
    assert p.client.slots[x.RingIndex()].valid && p.client.slots[x.RingIndex()].hdr == x;
    assert SlotOk(c, p, x.RingIndex(), log);
  }

  /** With 1024 requests pending the queue is full. A full queue has 1024 pending exactly if the
      requests ended in issue order. */
  lemma QueueFullCount(w0: World, w: World, c: ClientId)
    requires Reachable(w0, w) && c in w.parties
    ensures var p := w.parties[c];
            && (AllPending(w.log, c, p) ==> QueueFull(p.client))
            && (QueueFull(p.client) ==> (AllPending(w.log, c, p) <==> EndedInOrder(w.log, c, p)))
  {
    var p := w.parties[c];
    QueueFullMeaning(w0, w, c);
    PartyInv(w0, w, c);
    hide Reachable, PartyOk, QueueFull, PendingNth;
    forall n: nat | PendingNth(w.log, p.start, c, n) && n < p.count ensures p.count <= n + RING_SIZE {
      PendingIsRecent(c, p, w.log, n);
    }
  }

  lemma ReachableNext(w0: World, w: World, s: Step)
    requires Reachable(w0, w) && Enabled(w, s)
    ensures Reachable(w0, Next(w, s))
  {
    var steps :| Run(w0, steps, w);
    RunSnoc(w0, steps, w, s);
  }

  /** A client that has issued `n` requests none of which has ended. */
  ghost predicate AllOpen(w: World, c: ClientId, n: nat) {
    && c in w.parties && w.parties[c].count == n && Completed(w.log, c) == 0
    && forall k: nat | k < n :: PendingNth(w.log, w.parties[c].start, c, k)
  }

  lemma IssueOpen(w0: World, w: World, c: ClientId, n: nat, call: Call)
    requires Reachable(w0, w) && AllOpen(w, c, n) && n < RING_SIZE && call.Valid()
    ensures Enabled(w, IssueStep(c, call)) && AllOpen(Next(w, IssueStep(c, call)), c, n + 1)
  {
    var p := w.parties[c];
    PartyInv(w0, w, c);
    if QueueFull(p.client) { FullMeansPending(c, p, w.log); }
    var w', x := Next(w, IssueStep(c, call)), p.client.cur.SetOp(call.op);
    var e := Issue(x, call);
    ReachableInv(w0, w);
    IssueJustified(w0.kv, w, c, call);
    CompletedAppend(w.log, e, c);
    hide Inv, PartyOk, Reachable, Legal, Numbered, Justified, QueueFull;
    forall k: nat | k < n + 1 ensures PendingNth(w'.log, p.start, c, k) {
      if k == n { NewPending(w.log, e, p.start, c, k, x); } else { StillPending(w.log, e, p.start, c, k); }
    }
  }

  lemma StillPending(log: seq<Event>, e: Event, start: SeqNumber, c: ClientId, k: nat)
    requires PendingNth(log, start, c, k) && !e.Done?
    ensures PendingNth(log + [e], start, c, k)
  {
    var x: SeqOp :| x.id == c && x.num == Numbered(start, k) && Pending(log, x);
    var call :| Issue(x, call) in log;
    assert Issue(x, call) in log + [e];
    DoneAppend(log, e, x);
  }

  lemma NewPending(log: seq<Event>, e: Event, start: SeqNumber, c: ClientId, k: nat, x: SeqOp)
    requires e.Issue? && e.x == x && x.id == c && x.num == Numbered(start, k) && !DoneIn(log, x)
    ensures PendingNth(log + [e], start, c, k)
  {
    assert Issue(x, e.call) in log + [e];
    DoneAppend(log, e, x);
    assert Pending(log + [e], x);
  }

  lemma {:induction false} IssueMany(w0: World, c: ClientId, n: nat) returns (w: World)
    requires Initial(w0) && c in w0.parties && n <= RING_SIZE
    ensures Reachable(w0, w) && AllOpen(w, c, n)
  {
    if n == 0 {
      assert Run(w0, [], w0);
      w := w0;
    } else {
      var before := IssueMany(w0, c, n - 1);
      var call := Call(RDMA_GET, [], [], None, None, 0, false);
      hide Initial, Next, AllOpen, Reachable, Enabled;
      IssueOpen(w0, before, c, n - 1, call);
      ReachableNext(w0, before, IssueStep(c, call));
      w := Next(before, IssueStep(c, call));
    }
  }

  /** Every client gets to a state in which the queue is full with 1023 requests pending: all but
      the second of 1024 requests are open, that one having ended with a garbled response. */
  lemma FullWithout1024(w0: World, c: ClientId) returns (w: World)
    requires Initial(w0) && c in w0.parties
    ensures Reachable(w0, w) && c in w.parties
    ensures QueueFull(w.parties[c].client) && |ValidSlots(w.parties[c].client.slots)| == RING_SIZE - 1
  {
    var full := IssueMany(w0, c, RING_SIZE);
    var start := full.parties[c].start;
    assert PendingNth(full.log, start, c, 1) && PendingNth(full.log, start, c, 0);
    var x: SeqOp :| x.id == c && x.num == Numbered(start, 1) && Pending(full.log, x);
    hide Initial, Reachable, Enabled, PendingNth, Pending, Numbered;
    var s := RespondStep(c, 0, Garbage([], x.Next()));
    var d := GarbageEnds(w0, full, c, x, 0);
    ReachableNext(w0, full, s);
    w := Next(full, s);
    OthersStayPending(full.log, d, start, c, x);
    CompletedAppend(full.log, Done(d), c);
    QueueFullMeaning(w0, w, c);
    Conservation(w0, w, c);
  }

  lemma OthersStayPending(log: seq<Event>, d: Completion, start: SeqNumber, c: ClientId, x: SeqOp)
    requires PendingNth(log, start, c, 0) && d.hdr == x && x.num == Numbered(start, 1)
    ensures PendingNth(log + [Done(d)], start, c, 0)
  {
    var y: SeqOp :| y.id == c && y.num == Numbered(start, 0) && Pending(log, y);
    NumberedInjective(start, 0, 1);
    var call :| Issue(y, call) in log;
    assert Issue(y, call) in log + [Done(d)];
    DoneAppend(log, Done(d), y);
    assert Pending(log + [Done(d)], y);
  }

  // ---- responses that do not decrypt -------------------------------------------------------

  ghost predicate Ends(w: World, s: Step, x: SeqOp)
    requires Possible(w, s)
  {
    exists d :: Next(w, s).log == w.log + [Done(d)] && d.hdr == x
  }

  /** A response that does not decrypt, to whatever request, can end any pending one. */
  lemma GarbageEnds(w0: World, w: World, c: ClientId, x: SeqOp, n: nat) returns (d: Completion)
    requires Reachable(w0, w) && c in w.parties && Pending(w.log, x) && x.id == c && n < w.parties[c].count
    ensures var s := RespondStep(c, n, Garbage([], x.Next()));
            && Enabled(w, s) && Next(w, s).log == w.log + [Done(d)] && Next(w, s).parties.Keys == w.parties.Keys
            && var p, p' := w.parties[c], Next(w, s).parties[c]; p'.count == p.count && p'.start == p.start
    ensures d.hdr == x && d.ret == INVALID_RESPONSE
  {
    var p := w.parties[c];
    RingHoldsNewest(w0, w, c, x.RingIndex());
    assert x.Next().Prev() == x;
    hide Reachable, Pending;
    d := CompletionOf(p.client, x.RingIndex(), INVALID_RESPONSE);
  }

  /** One that decrypts ends the request it came with or none. */
  lemma OnlyGarbageEndsOthers(w0: World, w: World, c: ClientId, n: nat, m: Message, x: SeqOp)
    requires Reachable(w0, w) && c in w.parties && n < w.parties[c].count && m in w.sent
    requires x != w.parties[c].client.slots[Slot(w.parties[c].start, n)].hdr
    ensures !Ends(w, RespondStep(c, n, Genuine(m)), x)
  {
    var p := w.parties[c];
    PartyInv(w0, w, c);
    var i := Slot(p.start, n);
    assert p.client.slots[i].hdr.RingIndex() == i;
    hide Reachable, PartyOk, Continue, Slot;
    ResponseMatching(p.client, i, m);
    LastDone(w.log, Continue(p.client, i, Genuine(m)).done);
  }

  lemma LastDone(log: seq<Event>, done: Option<Completion>)
    ensures forall d :: log + (if done.Some? then [Done(done.value)] else []) == log + [Done(d)] ==> done == Some(d)
  {
    var log' := log + if done.Some? then [Done(done.value)] else [];
    forall d | log' == log + [Done(d)] ensures done == Some(d) {
      assert log'[|log|] == Done(d);
    }
  }

  // ---- disconnecting -----------------------------------------------------------------------

  /** Slots of pending requests are within the last 1024 before `count`, none before `p - 1024`. */
  ghost predicate Remaining(slots: Ring, start: SeqNumber, count: nat, p: nat) {
    forall i: nat | i < RING_SIZE && slots[i].valid ::
      var x := slots[i].hdr;
      OnGrid(start, x.num) && x.RingIndex() == i && p <= Ordinal(start, x.num) + RING_SIZE < count + RING_SIZE
  }

  ghost predicate InIssueOrder(start: SeqNumber, done: seq<Completion>) {
    forall j, k | 0 <= j < k < |done| :: Ordinal(start, done[j].hdr.num) < Ordinal(start, done[k].hdr.num)
  }

  /** `done` times out exactly the pending requests of `c`, each once and oldest first. */
  ghost predicate DrainedTo(c: Client, start: SeqNumber, done: seq<Completion>) {
    && InIssueOrder(start, done)
    && (forall i | 0 <= i < RING_SIZE && c.slots[i].valid :: CompletionOf(c, i, TIMEOUT) in done)
    && (forall d | d in done :: exists i :: 0 <= i < RING_SIZE && c.slots[i].valid && d == CompletionOf(c, i, TIMEOUT))
  }

  lemma DrainOne(c: Client, start: SeqNumber, count: nat, i: nat, rest: seq<Completion>)
    requires i < RING_SIZE && c.slots[i].valid
    requires Remaining(Invalidated(c, i).slots, start, count, Ordinal(start, c.slots[i].hdr.num) + RING_SIZE + 1)
    requires DrainedTo(Invalidated(c, i), start, rest)
    ensures DrainedTo(c, start, [CompletionOf(c, i, TIMEOUT)] + rest)
  {
    hide Ordinal, OnGrid;
    var d, c' := CompletionOf(c, i, TIMEOUT), Invalidated(c, i);
    var done := [d] + rest;
    assert forall k | 0 <= k < RING_SIZE && k != i :: CompletionOf(c', k, TIMEOUT) == CompletionOf(c, k, TIMEOUT);
    assert d in done;
    assert forall k | 0 <= k < RING_SIZE && c.slots[k].valid :: k == i || CompletionOf(c', k, TIMEOUT) in rest;
    forall e | e in rest ensures Ordinal(start, d.hdr.num) < Ordinal(start, e.hdr.num)
                         ensures exists k :: 0 <= k < RING_SIZE && c.slots[k].valid && e == CompletionOf(c, k, TIMEOUT) {
      var k :| 0 <= k < RING_SIZE && c'.slots[k].valid && e == CompletionOf(c', k, TIMEOUT);
      assert e == CompletionOf(c, k, TIMEOUT);
    }
    SortedCons(start, d, rest);
  }

  lemma SortedCons(start: SeqNumber, d: Completion, rest: seq<Completion>)
    requires InIssueOrder(start, rest)
    requires forall e | e in rest :: Ordinal(start, d.hdr.num) < Ordinal(start, e.hdr.num)
    ensures InIssueOrder(start, [d] + rest)
  {
    hide Ordinal;
    var done := [d] + rest;
    forall j, k | 0 <= j < k < |done| ensures Ordinal(start, done[j].hdr.num) < Ordinal(start, done[k].hdr.num) {
      assert done[k] == rest[k - 1];
    }
  }

  lemma {:induction false} DrainFrom(e: Effects, start: SeqNumber, count: nat, p: nat) returns (more: seq<Completion>)
    requires count <= p <= count + RING_SIZE && Remaining(e.client.slots, start, count, p)
    ensures var r := Drained(e, Slot(start, p), count + RING_SIZE - p);
            && r.done == e.done + more && DrainedTo(e.client, start, more)
            && forall i | 0 <= i < RING_SIZE :: !r.client.slots[i].valid
    decreases count + RING_SIZE - p
  {
    if p == count + RING_SIZE {
      more := [];
    } else {
      var i := Slot(start, p);
      assert Slot(start, p + 1) == (i + 1) % RING_SIZE;
      var c' := if e.client.slots[i].valid then Invalidated(e.client, i) else e.client;
      RemainingNext(e.client.slots, start, count, p);
      assert Remaining(c'.slots, start, count, p + 1);
      hide DrainedTo, Remaining;
      if e.client.slots[i].valid {
        var d := CompletionOf(e.client, i, TIMEOUT);
        var rest := DrainFrom(Effects(c', e.done + [d]), start, count, p + 1);
        more := [d] + rest;
        DrainOne(e.client, start, count, i, rest);
      } else {
        more := DrainFrom(e, start, count, p + 1);
      }
    }
  }

  /** The slot at place `p` is the only one that may hold the request 1024 before place `p`. */
  lemma RemainingNext(slots: Ring, start: SeqNumber, count: nat, p: nat)
    requires count <= p < count + RING_SIZE && Remaining(slots, start, count, p)
    ensures var i := Slot(start, p);
            && (slots[i].valid ==> Ordinal(start, slots[i].hdr.num) + RING_SIZE == p)
            && (!slots[i].valid ==> Remaining(slots, start, count, p + 1))
            && Remaining(slots[i := slots[i].(valid := false)], start, count, p + 1)
  {
    var i := Slot(start, p);
    forall k: nat | k < RING_SIZE && slots[k].valid
      ensures k != i ==> p + 1 <= Ordinal(start, slots[k].hdr.num) + RING_SIZE
      ensures k == i ==> Ordinal(start, slots[k].hdr.num) + RING_SIZE == p
    {
      var q := Ordinal(start, slots[k].hdr.num) + RING_SIZE;
      AtSlot(start, slots[k].hdr);
      if k == i && q > p { DifferentSlots(start, p, q); }
    }
  }

  /** A number's slot, also counted from 1024 requests later. */
  lemma AtSlot(start: SeqNumber, x: SeqOp)
    requires OnGrid(start, x.num)
    ensures Slot(start, Ordinal(start, x.num) + RING_SIZE) == x.RingIndex()
  {
    OrdinalInverse(start, x.num);
    NumberedFacts(start, Ordinal(start, x.num));
  }

  /** `invalidate_all_requests` in any reachable state: TIMEOUT for every pending request, once
      and oldest first, and for nothing else, after the completions made before; then no slot is
      valid. */
  lemma DrainOrder(w0: World, w: World, c: ClientId, past: seq<Completion>) returns (done: seq<Completion>)
    requires Reachable(w0, w) && c in w.parties
    ensures var p := w.parties[c];
            var r := Drained(Effects(p.client, past), p.client.cur.RingIndex(), RING_SIZE);
            && r.done == past + done && DrainedTo(p.client, p.start, done)
            && (forall i | 0 <= i < RING_SIZE :: !r.client.slots[i].valid)
    ensures forall x :: Pending(w.log, x) && x.id == c <==> exists d :: d in done && d.hdr == x
  {
    var p := w.parties[c];
    ReachableInv(w0, w);
    assert PartyOk(c, p, w.log);
    NumberedFacts(p.start, p.count);
    forall i: nat | i < RING_SIZE && p.client.slots[i].valid
      ensures SlotOk(c, p, i, w.log) {}
    done := DrainFrom(Effects(p.client, past), p.start, p.count, p.count);
    hide DrainedTo, Drained, Reachable, PartyOk;
    DrainComplete(w0, w, c, done);
  }

  lemma DrainComplete(w0: World, w: World, c: ClientId, done: seq<Completion>)
    requires Reachable(w0, w) && c in w.parties && DrainedTo(w.parties[c].client, w.parties[c].start, done)
    ensures forall x :: Pending(w.log, x) && x.id == c <==> exists d :: d in done && d.hdr == x
  {
    hide Reachable, Pending, Ordinal, Numbered, Slot;
    var p := w.parties[c];
    forall x ensures Pending(w.log, x) && x.id == c <==> exists d :: d in done && d.hdr == x {
      if Pending(w.log, x) && x.id == c {
        RingHoldsNewest(w0, w, c, x.RingIndex());
        assert CompletionOf(p.client, x.RingIndex(), TIMEOUT) in done;
      }
      if d :| d in done && d.hdr == x {
        var i :| 0 <= i < RING_SIZE && p.client.slots[i].valid && d == CompletionOf(p.client, i, TIMEOUT);
        RingHoldsNewest(w0, w, c, i);
      }
    }
  }
}

/** One client and its server thread over a transport that neither loses nor duplicates, and
    delivers each request at most 32 positions away from its place in issue order; no wrap of
    the sequence number and no disconnect. On such a link no slot of the ring stays taken. */
module Links {
  import opened SeqOps
  import opened Messages
  import opened Server
  import opened Clients

  datatype Link = Link(
    id: ClientId, start: SeqNumber,
    client: Client, issued: seq<Message>,
    thread: Thread, kv: Store, delivered: nat, // requests handed to the thread so far
    requests: set<nat>, responses: map<nat, Message>, // in flight, by ordinal
    done: seq<Completion>)

  datatype LinkStep = Send(call: Call) | Serve(n: nat, env: Surroundings) | Respond(n: nat)

  /** Request `n` may be the next one delivered: it is not too early, and none of those left
      becomes too late. */
  predicate Timely(l: Link, n: nat) {
    n <= l.delivered + 32 && l.delivered <= n + 32 && forall m | m in l.requests && m != n :: l.delivered + 1 <= m + 32
  }

  predicate Enabled(l: Link, s: LinkStep) {
    match s
    case Send(call) =>
      call.Valid() && call.op != RDMA_ERR && !QueueFull(l.client) && l.start + 2 * (|l.issued| + 1) <= SEQ_SPAN
    case Serve(n, env) =>
      n in l.requests && Timely(l, n) && n < |l.issued| && l.issued[n].hdr.op != RDMA_ERR &&
      Sendable(ReplyTo(l.issued[n].hdr, KvCall(l.kv, l.issued[n], env.putFails).1), env)
    case Respond(n) => n in l.responses
  }

  function Next(l: Link, s: LinkStep): Link
    requires Enabled(l, s)
  {
    match s
    case Send(call) =>
      l.(client := Sent(l.client, call), issued := l.issued + [RequestOf(l.client, call)],
         requests := l.requests + {|l.issued|})
    case Serve(n, env) =>
      var r := Handle(l.id, l.thread, l.kv, l.issued[n], env);
      l.(thread := r.thread, kv := r.kv, delivered := l.delivered + 1, requests := l.requests - {n},
         responses := if r.reply.Some? then l.responses[n := r.reply.value] else l.responses)
    case Respond(n) =>
      var e := Continue(l.client, Slot(l.start, n), Genuine(l.responses[n]));
      l.(client := e.client, responses := l.responses - {n},
         done := if e.done.Some? then l.done + [e.done.value] else l.done)
  }

  ghost predicate Run(l: Link, steps: seq<LinkStep>, l': Link)
    decreases |steps|
  {
    if steps == [] then l == l' else Enabled(l, steps[0]) && Run(Next(l, steps[0]), steps[1..], l')
  }

  predicate Fresh(l: Link) {
    && l.client.cur == SeqOp(l.start, l.id, 0) && (forall i | 0 <= i < RING_SIZE :: !l.client.slots[i].valid)
    && l.issued == [] && l.thread == Thread(0, true) && l.delivered == 0
    && l.requests == {} && l.responses == map[] && l.done == []
  }

  // ---- invariant ---------------------------------------------------------------------------

  predicate InFlight(l: Link, n: nat) { n in l.requests || n in l.responses }

  ghost predicate NumbersOk(l: Link) {
    && l.start + 2 * |l.issued| <= SEQ_SPAN
    && l.client.cur == SeqOp(Numbered(l.start, |l.issued|), l.id, 0)
    && (forall n | 0 <= n < |l.issued| ::
          var x := l.issued[n].hdr; x.num == l.start + 2 * n && x.id == l.id && x.op != RDMA_ERR)
  }

  ghost predicate FlightOk(l: Link) {
    && (forall n | n in l.requests :: n < |l.issued| && n !in l.responses && l.delivered <= n + 32)
    && (forall n | n in l.responses :: n < |l.issued| && l.responses[n].hdr.SameBase(l.issued[n].hdr.Next()))
    && l.delivered + |l.requests| == |l.issued|
    && (l.thread.next == 0 || l.start + 2 * (l.delivered - 32) <= l.thread.next <= l.start + 2 * (l.delivered + 32))
  }

  /** Taken slots are those of the requests in flight. */
  ghost predicate SlotsOk(l: Link) {
    && (forall n: nat | n < |l.issued| && InFlight(l, n) ::
          l.client.slots[Slot(l.start, n)].valid && l.client.slots[Slot(l.start, n)].hdr == l.issued[n].hdr)
    && (forall i: nat | i < RING_SIZE && l.client.slots[i].valid ::
          var n := Ordinal(l.start, l.client.slots[i].hdr.num);
          n < |l.issued| && InFlight(l, n) && Slot(l.start, n) == i)
  }

  /** Every request not in flight has ended with success or failure. */
  ghost predicate DoneOk(l: Link) {
    && |l.done| + |l.requests| + |l.responses| == |l.issued|
    && (forall n: nat | n < |l.issued| && !InFlight(l, n) :: Answered(l.done, l.issued[n].hdr))
  }

  ghost predicate Answered(done: seq<Completion>, x: SeqOp) {
    exists d :: d in done && d.hdr == x && d.ret in {OP_SUCCESS, OP_FAILED}
  }

  ghost predicate Inv(l: Link) { NumbersOk(l) && FlightOk(l) && SlotsOk(l) && DoneOk(l) }

  lemma SlotOfNumber(l: Link, n: nat)
    requires NumbersOk(l) && n < |l.issued|
    ensures l.issued[n].hdr.RingIndex() == Slot(l.start, n)
    ensures Ordinal(l.start, l.issued[n].hdr.num) == n
  {
    assert l.issued[n].hdr.num == Numbered(l.start, n);
    NumberedFacts(l.start, n);
  }

  // ---- sending -----------------------------------------------------------------------------

  lemma SendNumbers(l: Link, call: Call)
    requires NumbersOk(l) && Enabled(l, Send(call))
    ensures NumbersOk(Next(l, Send(call)))
    ensures l.client.cur.RingIndex() == Slot(l.start, |l.issued|)
    ensures Ordinal(l.start, l.client.cur.num) == |l.issued|
  {
    NumberedFacts(l.start, |l.issued|);
    assert Numbered(l.start, |l.issued|) == l.start + 2 * |l.issued|;
  }

  lemma SendSlots(l: Link, call: Call)
    requires NumbersOk(l) && SlotsOk(l) && FlightOk(l) && Enabled(l, Send(call))
    ensures SlotsOk(Next(l, Send(call)))
  {
    SendNumbers(l, call);
    hide Numbered, Slot, Ordinal, NumbersOk, SeqOp.RingIndex;
    var l', n := Next(l, Send(call)), |l.issued|;
    assert forall m: nat | m < n :: l'.issued[m] == l.issued[m];
    assert forall m: nat | m < n && InFlight(l, m) :: l.client.slots[Slot(l.start, m)].valid;
  }

  lemma SendFlight(l: Link, call: Call)
    requires FlightOk(l) && Enabled(l, Send(call))
    ensures FlightOk(Next(l, Send(call))) && |l.issued| !in l.requests && |l.issued| !in l.responses
  {
    hide Handle, Continue, Slot, Sent, RequestOf, QueueFull;
    var l' := Next(l, Send(call));
    assert forall m: nat | m < |l.issued| :: l'.issued[m] == l.issued[m];
    assert |l'.requests| == |l.requests| + 1;
  }

  lemma SendDone(l: Link, call: Call)
    requires FlightOk(l) && DoneOk(l) && Enabled(l, Send(call))
    ensures DoneOk(Next(l, Send(call)))
  {
    SendFlight(l, call);
    MoreInFlight(l, Next(l, Send(call)), RequestOf(l.client, call)) by { hide FlightOk, DoneOk; }
  }

  lemma MoreInFlight(l: Link, l': Link, m: Message)
    requires DoneOk(l) && |l.issued| !in l.requests && l'.issued == l.issued + [m]
    requires l'.requests == l.requests + {|l.issued|} && l'.responses == l.responses && l'.done == l.done
    ensures DoneOk(l')
  {
    hide Answered;
    forall n: nat | n < |l'.issued| && !InFlight(l', n) ensures Answered(l'.done, l'.issued[n].hdr) {
      assert n != |l.issued| && !InFlight(l, n);
    }
  }

  lemma SendKeeps(l: Link, call: Call)
    requires Inv(l) && Enabled(l, Send(call))
    ensures Inv(Next(l, Send(call)))
  {
    hide NumbersOk, FlightOk, SlotsOk, DoneOk, Enabled, Next;
    SendNumbers(l, call);
    SendSlots(l, call);
    SendFlight(l, call);
    SendDone(l, call);
  }

  // ---- serving -----------------------------------------------------------------------------

  /** The window of the thread admits every timely request, and its answer can be sent. */
  lemma Accepted(l: Link, n: nat, env: Surroundings)
    requires NumbersOk(l) && FlightOk(l) && Enabled(l, Serve(n, env))
    ensures var r := Handle(l.id, l.thread, l.kv, l.issued[n], env);
            && r.executed.Some? && r.reply.Some? && r.reply.value.hdr.SameBase(l.issued[n].hdr.Next())
            && r.thread.next == if l.start + 2 * (n + 1) == SEQ_SPAN then 0 else l.start + 2 * (n + 1)
  {
    hide KvCall;
  }

  lemma KeysGrow(m: map<nat, Message>, n: nat, v: Message)
    ensures m[n := v].Keys == m.Keys + {n}
    ensures n !in m ==> |m[n := v]| == |m| + 1
  {
    assert |m| == |m.Keys| && |m[n := v]| == |m[n := v].Keys|;
  }

  lemma KeysShrink(m: map<nat, Message>, n: nat)
    requires n in m
    ensures (m - {n}).Keys == m.Keys - {n} && |m - {n}| == |m| - 1
  {
    assert |m| == |m.Keys| && |m - {n}| == |(m - {n}).Keys|;
  }

  lemma ServeFlight(l: Link, n: nat, env: Surroundings)
    requires NumbersOk(l) && FlightOk(l) && Enabled(l, Serve(n, env))
    ensures var l' := Next(l, Serve(n, env));
            && FlightOk(l') && |l'.responses| == |l.responses| + 1 && |l'.requests| == |l.requests| - 1
            && l'.client == l.client && l'.issued == l.issued && l'.done == l.done && l'.start == l.start && l'.id == l.id
            && forall m :: InFlight(l', m) <==> InFlight(l, m)
  {
    Accepted(l, n, env);
    var l' := Next(l, Serve(n, env));
    assert l'.responses == l.responses[n := l'.responses[n]];
    MovedInFlight(l, l', n) by { hide FlightOk, NumbersOk; }
  }

  lemma MovedInFlight(l: Link, l': Link, n: nat)
    requires FlightOk(l) && n in l.requests && Timely(l, n)
    requires l'.start == l.start && l'.issued == l.issued && l'.delivered == l.delivered + 1
    requires l'.requests == l.requests - {n} && n in l'.responses && l'.responses == l.responses[n := l'.responses[n]]
    requires l'.responses[n].hdr.SameBase(l.issued[n].hdr.Next())
    requires l'.thread.next == 0 || l'.thread.next == l.start + 2 * (n + 1)
    ensures FlightOk(l') && |l'.responses| == |l.responses| + 1 && |l'.requests| == |l.requests| - 1
    ensures forall m :: InFlight(l', m) <==> InFlight(l, m)
  {
    MovedCounts(l, l', n, l'.responses[n]);
    hide SeqOp.SameBase, SeqOp.Next;
    assert forall m | m in l'.responses :: m == n || (m in l.responses && l'.responses[m] == l.responses[m]);
    assert forall m | m in l'.requests :: m in l.requests && m != n;
  }

  lemma MovedCounts(l: Link, l': Link, n: nat, r: Message)
    requires n in l.requests && n !in l.responses
    requires l'.requests == l.requests - {n} && l'.responses == l.responses[n := r]
    ensures |l'.responses| == |l.responses| + 1 && |l'.requests| == |l.requests| - 1
    ensures forall m :: InFlight(l', m) <==> InFlight(l, m)
  {
    KeysGrow(l.responses, n, r);
  }

  lemma SameFlight(l: Link, l': Link)
    requires NumbersOk(l) && SlotsOk(l) && DoneOk(l)
    requires l'.client == l.client && l'.issued == l.issued && l'.done == l.done && l'.start == l.start && l'.id == l.id
    requires |l'.requests| + |l'.responses| == |l.requests| + |l.responses|
    requires forall m :: InFlight(l', m) <==> InFlight(l, m)
    ensures NumbersOk(l') && SlotsOk(l') && DoneOk(l')
  {
    hide Numbered, Ordinal, Slot, InFlight, Answered;
    forall m: nat | m < |l'.issued| && !InFlight(l', m) ensures Answered(l'.done, l'.issued[m].hdr) {
      assert Answered(l.done, l.issued[m].hdr);
    }
  }

  lemma ServeKeeps(l: Link, n: nat, env: Surroundings)
    requires Inv(l) && Enabled(l, Serve(n, env))
    ensures Inv(Next(l, Serve(n, env)))
  {
    hide NumbersOk, FlightOk, SlotsOk, DoneOk, InFlight, Enabled, Next;
    ServeFlight(l, n, env);
    SameFlight(l, Next(l, Serve(n, env)));
  }

  // ---- answering ---------------------------------------------------------------------------

  lemma MatchedEnds(c: Client, i: nat, m: Message)
    requires i < RING_SIZE && c.slots[i].valid && c.slots[i].hdr.RingIndex() == i
    requires m.hdr.SameBase(c.slots[i].hdr.Next())
    ensures var e := Continue(c, i, Genuine(m));
            && e.client.cur == c.cur && e.client.slots == c.slots[i := c.slots[i].(valid := false)]
            && e.done.Some? && e.done.value.hdr == c.slots[i].hdr && e.done.value.ret in {OP_SUCCESS, OP_FAILED}
  {
    assert c.slots[i].hdr.Next().Prev() == c.slots[i].hdr;
    assert m.hdr.Prev().num == c.slots[i].hdr.num;
  }

  /** A response ends its own request and no other. */
  lemma ResponseEnds(l: Link, n: nat)
    requires NumbersOk(l) && FlightOk(l) && SlotsOk(l) && Enabled(l, Respond(n))
    ensures n < |l.issued| && n !in l.requests
    ensures var l', i := Next(l, Respond(n)), Slot(l.start, n);
            && l'.issued == l.issued && l'.requests == l.requests && l'.start == l.start && InFlight(l, n)
            && l'.client.cur == l.client.cur
            && l'.client.slots == l.client.slots[i := l.client.slots[i].(valid := false)]
            && l.client.slots[i].valid && l.client.slots[i].hdr == l.issued[n].hdr
            && (exists d :: l'.done == l.done + [d] && d.hdr == l.issued[n].hdr && d.ret in {OP_SUCCESS, OP_FAILED})
            && (forall m :: InFlight(l', m) <==> InFlight(l, m) && m != n)
  {
    SlotOfNumber(l, n);
    assert InFlight(l, n);
    hide Numbered, Slot, Ordinal, NumbersOk, Continue, SeqOp.RingIndex;
    var l', e := Next(l, Respond(n)), Continue(l.client, Slot(l.start, n), Genuine(l.responses[n]));
    MatchedEnds(l.client, Slot(l.start, n), l.responses[n]);
    assert l'.done == l.done + [e.done.value];
  }

  lemma RespondSlots(l: Link, n: nat)
    requires NumbersOk(l) && FlightOk(l) && SlotsOk(l) && Enabled(l, Respond(n))
    ensures SlotsOk(Next(l, Respond(n)))
  {
    ResponseEnds(l, n);
    hide Continue, Slot, NumbersOk, FlightOk, SlotsOk, InFlight;
    SlotFreed(l, Next(l, Respond(n)), n);
  }

  lemma SlotFreed(l: Link, l': Link, n: nat)
    requires NumbersOk(l) && SlotsOk(l) && n < |l.issued| && InFlight(l, n)
    requires l'.issued == l.issued && l'.start == l.start
    requires var i := Slot(l.start, n); l'.client.slots == l.client.slots[i := l.client.slots[i].(valid := false)]
    requires forall m :: InFlight(l', m) <==> InFlight(l, m) && m != n
    ensures SlotsOk(l')
  {
    SlotOfNumber(l, n);
    hide Numbered, Slot, Ordinal, InFlight;
    var i := Slot(l.start, n);
    forall m: nat | m < |l.issued| && InFlight(l', m) ensures Slot(l.start, m) != i {
      SlotOfNumber(l, m);
      assert l.client.slots[Slot(l.start, m)].hdr == l.issued[m].hdr;
    }
  }

  lemma RespondFlight(l: Link, n: nat)
    requires NumbersOk(l) && FlightOk(l) && SlotsOk(l) && Enabled(l, Respond(n))
    ensures var l' := Next(l, Respond(n)); NumbersOk(l') && FlightOk(l') && |l'.responses| == |l.responses| - 1
  {
    ResponseEnds(l, n);
    hide Continue, Numbered, Slot, Ordinal, SlotsOk;
    KeysShrink(l.responses, n);
  }

  lemma RespondDone(l: Link, n: nat)
    requires NumbersOk(l) && FlightOk(l) && SlotsOk(l) && DoneOk(l) && Enabled(l, Respond(n))
    ensures DoneOk(Next(l, Respond(n)))
  {
    ResponseEnds(l, n);
    RespondFlight(l, n);
    hide Continue, Numbered, Slot, Ordinal, SlotsOk, NumbersOk, FlightOk, Enabled, Next;
    var l' := Next(l, Respond(n));
    var d :| l'.done == l.done + [d] && d.hdr == l.issued[n].hdr && d.ret in {OP_SUCCESS, OP_FAILED};
    OneMoreDone(l, l', n, d);
  }

  lemma OneMoreDone(l: Link, l': Link, n: nat, d: Completion)
    requires DoneOk(l) && l'.issued == l.issued && l'.requests == l.requests && l'.done == l.done + [d] && n < |l.issued|
    requires |l'.responses| == |l.responses| - 1 && forall m :: InFlight(l', m) <==> InFlight(l, m) && m != n
    requires d.hdr == l.issued[n].hdr && d.ret in {OP_SUCCESS, OP_FAILED}
    ensures DoneOk(l')
  {
    hide InFlight;
    assert d in l'.done;
    forall m: nat | m < |l'.issued| && !InFlight(l', m) ensures Answered(l'.done, l'.issued[m].hdr) {
      if m != n {
        assert Answered(l.done, l.issued[m].hdr);
        var d' :| d' in l.done && d'.hdr == l.issued[m].hdr && d'.ret in {OP_SUCCESS, OP_FAILED};
        assert d' in l'.done;
      }
    }
  }

  lemma RespondKeeps(l: Link, n: nat)
    requires Inv(l) && Enabled(l, Respond(n))
    ensures Inv(Next(l, Respond(n)))
  {
    hide NumbersOk, FlightOk, SlotsOk, DoneOk, Enabled, Next;
    RespondSlots(l, n);
    RespondFlight(l, n);
    RespondDone(l, n);
  }

  lemma {:induction false} RunKeeps(l: Link, steps: seq<LinkStep>, l': Link)
    requires Inv(l) && Run(l, steps, l')
    ensures Inv(l')
    decreases |steps|
  {
    if steps != [] {
      match steps[0] {
        case Send(call) => SendKeeps(l, call);
        case Serve(n, env) => ServeKeeps(l, n, env);
        case Respond(n) => RespondKeeps(l, n);
      }
      RunKeeps(Next(l, steps[0]), steps[1..], l');
    }
  }

  // ---- no stuck slot -----------------------------------------------------------------------

  function Measure(l: Link): nat { 2 * |l.requests| + |l.responses| }

  /** With nothing in flight no slot is taken, and every request ever issued was answered. */
  lemma NoStuckSlot(l0: Link, steps: seq<LinkStep>, l: Link)
    requires Fresh(l0) && Run(l0, steps, l)
    requires l.requests == {} && l.responses == map[]
    ensures forall i | 0 <= i < RING_SIZE :: !l.client.slots[i].valid
    ensures !QueueFull(l.client)
    ensures |l.done| == |l.issued| && forall n: nat | n < |l.issued| :: Answered(l.done, l.issued[n].hdr)
  {
    FreshInv(l0);
    RunKeeps(l0, steps, l);
    forall i: nat | i < RING_SIZE ensures !l.client.slots[i].valid {}
  }

  lemma FreshInv(l: Link)
    requires Fresh(l)
    ensures Inv(l)
  {
    assert Numbered(l.start, 0) == l.start;
  }

  /** Deliveries alone drain the link: each brings it nearer to empty. */
  lemma {:induction false} DeliveriesDrain(l: Link, steps: seq<LinkStep>, l': Link)
    requires Inv(l) && Run(l, steps, l') && forall s | s in steps :: !s.Send?
    ensures |steps| + Measure(l') <= Measure(l)
    decreases |steps|
  {
    if steps != [] {
      assert steps[0] in steps;
      DeliveryDrains(l, steps[0]);
      hide Inv, Enabled, Next, Measure;
      DeliveriesDrain(Next(l, steps[0]), steps[1..], l');
    }
  }

  /** The wait for a slot ends: as many deliveries as the measure allows leave nothing in flight
      and the next slot free, whichever they are. */
  lemma WaitEnds(l: Link, steps: seq<LinkStep>, l': Link)
    requires Inv(l) && Run(l, steps, l') && (forall s | s in steps :: !s.Send?) && |steps| >= Measure(l)
    ensures l'.requests == {} && l'.responses == map[] && !QueueFull(l'.client)
  {
    DeliveriesDrain(l, steps, l');
    assert Measure(l') == 0;
    RunKeeps(l, steps, l');
    hide Run, NumbersOk, DoneOk;
    assert forall i: nat | i < RING_SIZE :: !l'.client.slots[i].valid;
  }

  /** Replies with any value stored or about to be stored fit. */
  ghost predicate Roomy(l: Link, env: Surroundings) {
    && !env.encryptFails && MIN_MSG_LEN <= env.maxMsgSize
    && (forall k | k in l.kv :: |l.kv[k]| + MIN_MSG_LEN <= env.maxMsgSize)
    && (forall n | 0 <= n < |l.issued| :: |l.issued[n].value| + MIN_MSG_LEN <= env.maxMsgSize)
  }

  lemma StaysRoomy(l: Link, s: LinkStep, env: Surroundings)
    requires Roomy(l, env) && Enabled(l, s) && !s.Send?
    ensures Roomy(Next(l, s), env)
  {
  }

  /** And there are such deliveries, if replies fit. */
  lemma {:induction false} WaitCanEnd(l: Link, env: Surroundings) returns (steps: seq<LinkStep>, l': Link)
    requires Inv(l) && Roomy(l, env)
    ensures Run(l, steps, l') && (forall s | s in steps :: !s.Send?)
    ensures l'.requests == {} && l'.responses == map[] && !QueueFull(l'.client)
    decreases Measure(l)
  {
    if l.requests == {} && l.responses == map[] {
      steps, l' := [], l;
      WaitEnds(l, [], l);
    } else {
      var s := DeliveryPossible(l, env);
      DeliveryDrains(l, s);
      StaysRoomy(l, s, env);
      hide Inv, Enabled, Next, Measure, Roomy, QueueFull;
      var rest;
      rest, l' := WaitCanEnd(Next(l, s), env);
      steps := [s] + rest;
      assert steps[1..] == rest;
    }
  }

  lemma DeliveryDrains(l: Link, s: LinkStep)
    requires Inv(l) && Enabled(l, s) && !s.Send?
    ensures Inv(Next(l, s)) && Measure(Next(l, s)) < Measure(l)
  {
    match s
    case Serve(n, env) =>
      ServeKeeps(l, n, env);
      ServeFlight(l, n, env);
    case Respond(n) =>
      RespondKeeps(l, n);
      RespondFlight(l, n);
  }

  /** And until it is empty some delivery is possible: a response, or the oldest request. So the
      wait for a slot ends. */
  lemma DeliveryPossible(l: Link, env: Surroundings) returns (s: LinkStep)
    requires Inv(l) && (l.requests != {} || l.responses != map[])
    requires !env.encryptFails && forall k | k in l.kv :: |l.kv[k]| + MIN_MSG_LEN <= env.maxMsgSize
    requires MIN_MSG_LEN <= env.maxMsgSize
    ensures Enabled(l, s) && !s.Send?
  {
    if l.responses != map[] {
      var n :| n in l.responses;
      s := Respond(n);
    } else {
      var n := Oldest(l.requests);
      InInterval(l.requests, n, |l.issued|);
      s := Serve(n, env);
    }
  }

  lemma {:induction false} Oldest(s: set<nat>) returns (n: nat)
    requires s != {}
    ensures n in s && forall m | m in s :: n <= m
    decreases s
  {
    var k :| k in s;
    var rest := s - {k};
    if rest == {} {
      assert s == {k};
      n := k;
    } else {
      var r := Oldest(rest);
      n := if k < r then k else r;
      assert forall m | m in s :: m == k || m in rest;
    }
  }

  lemma {:induction false} InInterval(s: set<nat>, lo: nat, hi: nat)
    requires lo <= hi && forall m | m in s :: lo <= m < hi
    ensures |s| <= hi - lo
    decreases hi - lo
  {
    if lo == hi {
      assert s == {};
    } else {
      InInterval(s - {lo}, lo + 1, hi);
    }
  }
}

/** Clients, server threads and the network between them as one transition system. Nothing is
    ever taken out of the network: any message some party encrypted may reach any server thread
    and any continuation, late, out of order, repeatedly or never. What arrives at a continuation
    may also be bytes that do not decrypt. Authenticated encryption is ideal: what decrypts was
    encrypted by some party. The threads accept more than the protocol can bear, so `Possible`
    steps are told from `Enabled` ones, in which no thread accepts an executed request again. */
module Protocol {
  import opened SeqOps
  import opened Messages
  import opened Server
  import opened Clients
  import opened Histories

  /** A client, the sequence number it started with and the requests it has issued. */
  datatype Party = Party(client: Client, start: SeqNumber, count: nat)

  datatype World = World(
    parties: map<ClientId, Party>,
    threads: map<ClientId, Thread>,
    kv: Store,
    sent: set<Message>, // every message ever encrypted
    log: seq<Event>)

  datatype Step =
    | IssueStep(c: ClientId, call: Call)              // a call whose request is sent
    | FailStep(c: ClientId, call: Call)               // a call whose encryption fails
    | ServeStep(t: ClientId, m: Message, env: Surroundings)
    | RespondStep(c: ClientId, n: nat, a: Arrival)    // continuation of c's n-th request
    | TimeoutStep(c: ClientId, i: nat)                // one slot's part of a drain

  /** What can happen at all. */
  predicate Possible(w: World, s: Step) {
    match s
    case IssueStep(c, call) =>
      c in w.parties && call.Valid() && !QueueFull(w.parties[c].client) && w.parties[c].count + 1 < MAX_REQUESTS
    case FailStep(c, call) => c in w.parties && call.Valid() && !QueueFull(w.parties[c].client)
    case ServeStep(t, m, env) => t in w.threads && m in w.sent
    case RespondStep(c, n, a) => c in w.parties && n < w.parties[c].count && (a.Genuine? ==> a.m in w.sent)
    case TimeoutStep(c, i) => c in w.parties && i < RING_SIZE && w.parties[c].client.slots[i].valid
  }

  /** What a server thread may be handed: a request that was not executed yet, or a message
      whose number is none of its client's, such as the reply to a request. That leaves out
      requests already executed and replies to replies, whose numbers are those of requests. */
  ghost predicate Admissible(w: World, m: Message) {
    || Asked(w.log, m)
    || (m.hdr.id in w.parties && !OnGrid(w.parties[m.hdr.id].start, m.hdr.num))
  }

  /** A message the thread turns away: it is of another client, or outside the window. */
  predicate Rejected(w: World, t: ClientId, m: Message, env: Surroundings)
    requires t in w.threads
  {
    m.hdr.op != RDMA_ERR && Handle(t, w.threads[t], w.kv, m, env).executed.None?
  }

  /** What is assumed to happen: of what reaches a thread, anything it rejects, and otherwise only
      what is admissible. */
  ghost predicate Enabled(w: World, s: Step) {
    Possible(w, s) && (s.ServeStep? ==> Rejected(w, s.t, s.m, s.env) || Admissible(w, s.m))
  }

  function WithClient(w: World, c: ClientId, client: Client, done: seq<Completion>): World
    requires c in w.parties && |done| <= 1
  {
    w.(parties := w.parties[c := w.parties[c].(client := client)],
       log := w.log + if done == [] then [] else [Done(done[0])])
  }

  function Next(w: World, s: Step): World
    requires Possible(w, s)
  {
    match s
    case IssueStep(c, call) =>
      var p := w.parties[c];
      var m := RequestOf(p.client, call);
      World(w.parties[c := Party(Sent(p.client, call), p.start, p.count + 1)], w.threads, w.kv,
            w.sent + {m}, w.log + [Issue(m.hdr, call)])
    case FailStep(c, call) => WithClient(w, c, Unsent(w.parties[c].client, call), [])
    case ServeStep(t, m, env) =>
      var r := Handle(t, w.threads[t], w.kv, m, env);
      World(w.parties, w.threads[t := r.thread], r.kv,
            w.sent + (if r.reply.Some? then {r.reply.value} else {}),
            w.log + (if r.executed.Some? then [Exec(m, r.executed.value)] else []))
    case RespondStep(c, n, a) =>
      var p := w.parties[c];
      var e := Continue(p.client, Slot(p.start, n), a);
      WithClient(w, c, e.client, if e.done.Some? then [e.done.value] else [])
    case TimeoutStep(c, i) =>
      var p := w.parties[c];
      WithClient(w, c, Invalidated(p.client, i), [CompletionOf(p.client, i, TIMEOUT)])
  }

  predicate Initial(w: World) {
    && w.sent == {} && w.log == []
    && (forall t | t in w.threads :: w.threads[t] == Thread(0, true))
    && (forall c | c in w.parties ::
          var p := w.parties[c];
          && p.count == 0 && p.client.cur == SeqOp(p.start, c, 0)
          && forall i | 0 <= i < RING_SIZE :: !p.client.slots[i].valid)
  }

  /** `w` is reached from `w0` by `steps`. */
  ghost predicate Run(w0: World, steps: seq<Step>, w: World)
    decreases |steps|
  {
    if steps == [] then w == w0 else
    Enabled(w0, steps[0]) && Run(Next(w0, steps[0]), steps[1..], w)
  }

  // ---- invariant: one client's ring --------------------------------------------------------

  ghost predicate Matches(t: Tag, call: Call) {
    && t.hdr.op == call.op && t.user == call.user && t.callback == call.callback && t.len == call.len
    && (call.op != RDMA_ERR ==> t.value == call.dest)
  }

  /** A valid slot holds a pending request of this client, one of its last 1024 and so the
      newest with the slot's index, as it was issued. */
  ghost predicate SlotOk(id: ClientId, p: Party, i: nat, log: seq<Event>)
    requires i < RING_SIZE
  {
    var t := p.client.slots[i];
    t.valid ==>
      && t.hdr.id == id && OnGrid(p.start, t.hdr.num) && t.hdr.RingIndex() == i
      && Ordinal(p.start, t.hdr.num) < p.count <= Ordinal(p.start, t.hdr.num) + RING_SIZE
      && !DoneIn(log, t.hdr)
      && exists call :: Issue(t.hdr, call) in log && Matches(t, call)
  }

  /** A request that has not ended still has its slot. */
  ghost predicate PendingOk(id: ClientId, p: Party, log: seq<Event>) {
    forall x, call | Issue(x, call) in log && x.id == id ::
      DoneIn(log, x) || (p.client.slots[x.RingIndex()].valid && p.client.slots[x.RingIndex()].hdr == x)
  }

  /** Every slot in use keeps a header of its own index. */
  ghost predicate HeadersOk(p: Party) {
    forall n: nat | n < p.count :: p.client.slots[Slot(p.start, n)].hdr.RingIndex() == Slot(p.start, n)
  }

  function Completed(log: seq<Event>, id: ClientId): nat
    decreases |log|
  {
    if log == [] then 0 else
    var e := log[|log| - 1];
    Completed(log[..|log| - 1], id) + if e.Done? && e.done.hdr.id == id then 1 else 0
  }

  function ValidSlots(slots: Ring): set<nat> { set i: nat | i < RING_SIZE && slots[i].valid }

  ghost predicate PartyOk(id: ClientId, p: Party, log: seq<Event>) {
    && p.count < MAX_REQUESTS
    && p.client.cur == SeqOp(Numbered(p.start, p.count), id, 0)
    && (forall i: nat | i < RING_SIZE :: SlotOk(id, p, i, log))
    && PendingOk(id, p, log)
    && HeadersOk(p)
    && p.count == Completed(log, id) + |ValidSlots(p.client.slots)|
  }

  // ---- invariant: history and network ------------------------------------------------------

  ghost predicate Replied(log: seq<Event>, r: Message) {
    exists q: Message, out :: r == ReplyTo(q.hdr, out) && IssuedAs(log, q)
                              && if q.hdr.op == RDMA_ERR then out == Failed else Exec(q, out) in log
  }

  /** The reply to a reply that a thread took for a request. */
  ghost predicate Echoed(log: seq<Event>, r: Message) {
    exists q: Message, out :: Replied(log, q) && r == ReplyTo(q.hdr, out)
  }

  ghost predicate Known(log: seq<Event>, r: Message) { IssuedAs(log, r) || Replied(log, r) || Echoed(log, r) }

  ghost predicate IssuesOk(w: World) {
    && (forall x, call | Issue(x, call) in w.log ::
          && x.id in w.parties && OnGrid(w.parties[x.id].start, x.num)
          && Ordinal(w.parties[x.id].start, x.num) < w.parties[x.id].count)
    && (forall x, y, c, d | Issue(x, c) in w.log && Issue(y, d) in w.log && x.SameBase(y) :: x == y && c == d)
  }

  ghost predicate NetworkOk(w: World) { forall r | r in w.sent :: Known(w.log, r) }

  ghost predicate Inv(kv: Store, w: World) {
    && Legal(kv, w.log) && w.kv == Replay(kv, w.log)
    && IssuesOk(w) && NetworkOk(w)
    && forall c | c in w.parties :: PartyOk(c, w.parties[c], w.log)
  }
}

/** What goes wrong when a server thread is handed more than it may be: the thread does not
    refuse it, and the histories that follow are none of an atomic store. */
module Replays {
  import opened SeqOps
  import opened Messages
  import opened Server
  import opened Clients
  import opened Histories
  import opened Protocol
  import opened ProtocolProofs
  import opened ProtocolTheorems

  /** A run of any possible steps. */
  ghost predicate PossibleRun(w0: World, steps: seq<Step>, w: World)
    decreases |steps|
  {
    if steps == [] then w == w0 else
    Possible(w0, steps[0]) && PossibleRun(Next(w0, steps[0]), steps[1..], w)
  }

  lemma PossibleNothing(w: World)
    ensures PossibleRun(w, [], w)
  {
  }

  lemma {:induction false} PossibleMore(w0: World, steps: seq<Step>, w: World, s: Step)
    requires PossibleRun(w0, steps, w) && Possible(w, s)
    ensures PossibleRun(w0, steps + [s], Next(w, s))
    decreases |steps|
  {
    hide Possible, Next;
    var all := steps + [s];
    if steps == [] {
      assert all[1..] == [];
    } else {
      assert all[0] == steps[0] && all[1..] == steps[1..] + [s];
      PossibleMore(Next(w0, steps[0]), steps[1..], w, s);
    }
  }

  lemma {:induction false} RunIsPossible(w0: World, steps: seq<Step>, w: World)
    requires Run(w0, steps, w)
    ensures PossibleRun(w0, steps, w)
    decreases |steps|
  {
    hide Possible, Admissible, Next;
    if steps != [] { RunIsPossible(Next(w0, steps[0]), steps[1..], w); }
  }

  // ---- connections -------------------------------------------------------------------------

  predicate IsDisconnect(s: Step, t: ClientId) { s.ServeStep? && s.t == t && s.m.hdr.op == RDMA_ERR }

  /** After any run, a thread that was connected is so still if and only if no disconnect was
      delivered to it. */
  lemma {:induction false} ConnectedExactly(w0: World, steps: seq<Step>, w: World, t: ClientId)
    requires PossibleRun(w0, steps, w) && t in w0.threads
    ensures t in w.threads
    ensures w.threads[t].connected <==> w0.threads[t].connected && forall s | s in steps :: !IsDisconnect(s, t)
    decreases |steps|
  {
    if steps != [] {
      ConnectionStep(w0, steps[0], t);
      assert forall s | s in steps :: s == steps[0] || s in steps[1..];
      hide Possible, Next, IsDisconnect;
      ConnectedExactly(Next(w0, steps[0]), steps[1..], w, t);
    }
  }

  lemma ConnectionStep(w: World, s: Step, t: ClientId)
    requires Possible(w, s) && t in w.threads
    ensures t in Next(w, s).threads
    ensures Next(w, s).threads[t].connected <==> w.threads[t].connected && !IsDisconnect(s, t)
  {
    hide KvCall, Continue, InWindow;
  }

  /** In particular in a reachable state: while no client asked to disconnect, all threads serve. */
  lemma ReachableConnected(w0: World, steps: seq<Step>, w: World, t: ClientId)
    requires Initial(w0) && Run(w0, steps, w) && t in w0.threads
    ensures t in w.threads
    ensures w.threads[t].connected <==> forall s | s in steps :: !IsDisconnect(s, t)
  {
    assert w0.threads[t].connected;
    RunIsPossible(w0, steps, w);
    hide PossibleRun, Initial, Run;
    ConnectedExactly(w0, steps, w, t);
  }

  // ---- the exact condition -----------------------------------------------------------------

  /** In a reachable state an execution keeps the history legal if and only if the message was
      admissible: a request not executed before, or a message outside its client's numbers. */
  lemma AdmissibleExactly(w0: World, w: World, t: ClientId, m: Message, env: Surroundings)
    requires Reachable(w0, w) && Possible(w, ServeStep(t, m, env))
    requires Handle(t, w.threads[t], w.kv, m, env).executed.Some?
    ensures Legal(w0.kv, Next(w, ServeStep(t, m, env)).log) <==> Admissible(w, m)
  {
    ReachableInv(w0, w);
    var w' := Next(w, ServeStep(t, m, env));
    if Admissible(w, m) {
      AdmittedKeeps(w0.kv, w, t, m, env);
    }
    if Legal(w0.kv, w'.log) {
      LegalMeansAdmissible(w0.kv, w, w'.log, m, Handle(t, w.threads[t], w.kv, m, env).executed.value);
    }
  }

  lemma LegalMeansAdmissible(kv: Store, w: World, log: seq<Event>, m: Message, out: Outcome)
    requires IssuesOk(w) && log == w.log + [Exec(m, out)] && Legal(kv, log)
    ensures Admissible(w, m)
  {
    var last := |log| - 1;
    assert Justified(kv, log[..last], log[last]) && log[..last] == w.log;
    hide Legal, IssuesOk, OnGrid, KvCall, Asked, Stray;
    if !Asked(w.log, m) {
      var q, v := StrayAnswer(w.log, m);
      RequestOnGrid(w, q);
      ResponseOffGrid(w.parties[q.hdr.id].start, q.hdr.num);
    }
  }

  /** Every message with the number of a response answers the request before it. */
  ghost predicate AnswersHonest(w: World) {
    forall r | r in w.sent && r.hdr.id in w.parties && !OnGrid(w.parties[r.hdr.id].start, r.hdr.num) :: Replied(w.log, r)
  }

  /** Deliveries that execute nothing: they make a response that answers no request if and only if
      they return an inadmissible error message, that is, the reply to a reply; and its own
      reply is sent; and that is not by chance what the store did answer. Otherwise they keep the
      invariant, and with it every guarantee. */
  lemma HarmlessExactly(w0: World, w: World, t: ClientId, m: Message, env: Surroundings)
    requires Reachable(w0, w) && Possible(w, ServeStep(t, m, env))
    requires Handle(t, w.threads[t], w.kv, m, env).executed.None?
    ensures var w', reply := Next(w, ServeStep(t, m, env)), ReplyTo(m.hdr, Failed);
            var harmless := Admissible(w, m) || m.hdr.op != RDMA_ERR || !Sendable(reply, env) || Replied(w.log, reply);
            && (AnswersHonest(w') <==> harmless)
            && (harmless ==> Inv(w0.kv, w'))
  {
    ReachableInv(w0, w);
    var w', reply := Next(w, ServeStep(t, m, env)), ReplyTo(m.hdr, Failed);
    var harmless := Admissible(w, m) || m.hdr.op != RDMA_ERR || !Sendable(reply, env) || Replied(w.log, reply);
    if harmless {
      HarmlessKeeps(w0.kv, w, t, m, env);
      forall r | r in w'.sent && r.hdr.id in w'.parties && !OnGrid(w'.parties[r.hdr.id].start, r.hdr.num)
        ensures Replied(w'.log, r)
      {
        OffGridIsReply(w', r);
      }
    } else {
      KnownClient(w, m);
      ResponseOffGrid(w.parties[m.hdr.id].start, m.hdr.num);
      hide Inv, Replied, OnGrid;
      assert w'.log == w.log + [] && w.log + [] == w.log && reply in w'.sent;
    }
  }

  lemma KnownClient(w: World, m: Message)
    requires IssuesOk(w) && NetworkOk(w) && m in w.sent
    ensures m.hdr.id in w.parties
  {
    hide IssuesOk, OnGrid, Replied, Echoed, IssuedAs;
    assert Known(w.log, m);
    if IssuedAs(w.log, m) { RequestOnGrid(w, m); }
    if Replied(w.log, m) { ReplyOffGrid(w, m); }
    if Echoed(w.log, m) { EchoOnGrid(w, m); }
  }

  lemma HarmlessKeeps(kv: Store, w: World, t: ClientId, m: Message, env: Surroundings)
    requires Inv(kv, w) && Possible(w, ServeStep(t, m, env))
    requires Handle(t, w.threads[t], w.kv, m, env).executed.None?
    requires var reply := ReplyTo(m.hdr, Failed);
             Admissible(w, m) || m.hdr.op != RDMA_ERR || !Sendable(reply, env) || Replied(w.log, reply)
    ensures Inv(kv, Next(w, ServeStep(t, m, env)))
  {
    if Admissible(w, m) {
      AdmittedKeeps(kv, w, t, m, env);
    } else if m.hdr.op != RDMA_ERR {
      RejectedIdle(w, t, m, env);
    } else {
      ErrorStep(w, t, m, env);
      hide Possible, Next, Handle, Admissible, Replied, Inv;
      MoreSent(kv, w, Next(w, ServeStep(t, m, env)), ReplyTo(m.hdr, Failed));
    }
  }

  /** An error message is answered if that can be sent, and nothing else happens to clients and
      history. */
  lemma ErrorStep(w: World, t: ClientId, m: Message, env: Surroundings)
    requires Possible(w, ServeStep(t, m, env)) && m.hdr.op == RDMA_ERR
    ensures var w', reply := Next(w, ServeStep(t, m, env)), ReplyTo(m.hdr, Failed);
            && w'.parties == w.parties && w'.kv == w.kv && w'.log == w.log
            && w'.sent == w.sent + if Sendable(reply, env) then {reply} else {}
  {
    assert w.log + [] == w.log;
  }

  /** Sending once more what answers a request does no harm. */
  lemma MoreSent(kv: Store, w: World, w': World, r: Message)
    requires Inv(kv, w) && w'.parties == w.parties && w'.kv == w.kv && w'.log == w.log
    requires w'.sent == w.sent || (w'.sent == w.sent + {r} && Replied(w.log, r))
    ensures Inv(kv, w')
  {
    hide PartyOk, IssuesOk, Legal, Replied, Echoed, IssuedAs;
    IssuesSame(w, w');
  }

  // ---- a request delivered twice -----------------------------------------------------------

  /** The same request delivered twice in a row, in any state that executes it once, is executed
      twice, unless it has the very last number before the wrap. */
  lemma ServedTwice(w: World, t: ClientId, m: Message, env: Surroundings, env': Surroundings) returns (a: Outcome, b: Outcome)
    requires Possible(w, ServeStep(t, m, env)) && Handle(t, w.threads[t], w.kv, m, env).executed.Some?
    ensures var w1 := Next(w, ServeStep(t, m, env));
            && Possible(w1, ServeStep(t, m, env'))
            && Next(w1, ServeStep(t, m, env')).log ==
               w.log + [Exec(m, a)] + if m.hdr.num + 2 <= SEQ_SPAN then [Exec(m, b)] else []
  {
    HandledAgain(t, w.threads[t], w.kv, m, env, env');
    hide Handle;
    var h := Handle(t, w.threads[t], w.kv, m, env);
    var h' := Handle(t, h.thread, h.kv, m, env');
    a := h.executed.value;
    b := if h'.executed.Some? then h'.executed.value else Failed;
  }

  /** From every initial state: a get, put or delete is issued, delivered twice and executed twice.
      A client that starts at the last number before the wrap has it happen to its second
      request. */
  lemma TwoExecutions(w0: World, c: ClientId, call: Call, env: Surroundings)
    returns (steps: seq<Step>, w: World, m: Message, a: Outcome, b: Outcome)
    requires Initial(w0) && c in w0.parties && c in w0.threads && call.Valid() && call.op != RDMA_ERR
    ensures PossibleRun(w0, steps, w) && |steps| <= 4
    ensures exists issues :: w.log == issues + [Exec(m, a), Exec(m, b)] && Issue(m.hdr, call) in issues
    ensures m.key == call.key && m.value == call.value && !Legal(w0.kv, w.log)
  {
    assert w0.threads[c].next == 0;
    hide Handle, Next, Possible, Initial, PossibleRun;
    var issue := IssueStep(c, call);
    FirstIssue(w0, c, call);
    PossibleNothing(w0);
    PossibleMore(w0, [], w0, issue);
    if w0.parties[c].start + 2 <= SEQ_SPAN {
      m := RequestOf(w0.parties[c].client, call);
      w, a, b := DeliveredTwice(w0, [] + [issue], Next(w0, issue), c, m, call, env);
      steps := [] + [issue] + [ServeStep(c, m, env)] + [ServeStep(c, m, env)];
    } else {
      m := SecondRequest(w0, c, call);
      PossibleMore(w0, [] + [issue], Next(w0, issue), issue);
      w, a, b := DeliveredTwice(w0, [] + [issue] + [issue], Next(Next(w0, issue), issue), c, m, call, env);
      steps := [] + [issue] + [issue] + [ServeStep(c, m, env)] + [ServeStep(c, m, env)];
    }
  }

  lemma DeliveredTwice(w0: World, steps: seq<Step>, w1: World, c: ClientId, m: Message, call: Call, env: Surroundings)
    returns (w: World, a: Outcome, b: Outcome)
    requires PossibleRun(w0, steps, w1) && m in w1.sent && Issue(m.hdr, call) in w1.log
    requires c in w1.threads && w1.threads[c].next == 0 && m.hdr.id == c && m.hdr.op != RDMA_ERR && m.hdr.num + 2 <= SEQ_SPAN
    ensures PossibleRun(w0, steps + [ServeStep(c, m, env)] + [ServeStep(c, m, env)], w)
    ensures w.log == w1.log + [Exec(m, a), Exec(m, b)] && !Legal(w0.kv, w.log)
  {
    hide PossibleRun, KvCall;
    var serve := ServeStep(c, m, env);
    a, b := ServedTwice(w1, c, m, env, env);
    hide Handle, Next, Possible;
    var w2 := Next(w1, serve);
    w := Next(w2, serve);
    PossibleMore(w0, steps, w1, serve);
    PossibleMore(w0, steps + [serve], w2, serve);
    TwiceIllegal(w0.kv, w1.log, m, call, a, b);
    assert w.log == w1.log + [Exec(m, a), Exec(m, b)];
  }

  lemma SecondRequest(w0: World, c: ClientId, call: Call) returns (m: Message)
    requires Initial(w0) && c in w0.parties && call.Valid() && w0.parties[c].start == SEQ_SPAN - 1
    ensures Possible(w0, IssueStep(c, call)) && Possible(Next(w0, IssueStep(c, call)), IssueStep(c, call))
    ensures m == Message(SeqOp(1, c, call.op), call.key, call.value)
    ensures var w := Next(Next(w0, IssueStep(c, call)), IssueStep(c, call));
            Issue(m.hdr, call) in w.log && m in w.sent && w.threads == w0.threads && w.kv == w0.kv
  {
    FirstIssue(w0, c, call);
    assert !w0.parties[c].client.slots[0].valid;
    m := Message(SeqOp(1, c, call.op), call.key, call.value);
  }

  lemma FirstIssue(w0: World, c: ClientId, call: Call)
    requires Initial(w0) && c in w0.parties && call.Valid()
    ensures Possible(w0, IssueStep(c, call))
    ensures var w, m := Next(w0, IssueStep(c, call)), RequestOf(w0.parties[c].client, call);
            && w.log == [Issue(m.hdr, call)] && m in w.sent && w.threads == w0.threads && w.kv == w0.kv
            && m == Message(SeqOp(w0.parties[c].start, c, call.op), call.key, call.value)
  {
    assert !w0.parties[c].client.slots[w0.parties[c].client.cur.RingIndex()].valid;
  }

  lemma TwiceIllegal(kv: Store, issues: seq<Event>, m: Message, call: Call, a: Outcome, b: Outcome)
    requires Issue(m.hdr, call) in issues
    ensures !Legal(kv, issues + [Exec(m, a), Exec(m, b)])
  {
    var log, n := issues + [Exec(m, a), Exec(m, b)], |issues|;
    var h :| 0 <= h < n && issues[h] == Issue(m.hdr, call);
    assert log[h].Issue? && log[n] == Exec(m, a) && log[n + 1] == Exec(m, b);
    if Legal(kv, log) { OneExecution(kv, log, h, n, n + 1); }
  }

  // ---- a reply to a reply ------------------------------------------------------------------

  /** Serving a put that is in the window, with nothing failing. */
  lemma ServePut(w: World, c: ClientId, m: Message, env: Surroundings)
    requires c in w.threads && m in w.sent && m.hdr.op == RDMA_PUT && m.hdr.id == c
    requires InWindow(w.threads[c].next, m.hdr.num) && m.hdr.num + 2 < SEQ_SPAN
    requires !env.putFails && !env.encryptFails && MIN_MSG_LEN <= env.maxMsgSize
    ensures Possible(w, ServeStep(c, m, env))
    ensures var w', r := Next(w, ServeStep(c, m, env)), Message(m.hdr.Next(), [], []);
            && w'.parties == w.parties && w'.sent == w.sent + {r} && w'.log == w.log + [Exec(m, Ok([]))]
            && c in w'.threads && w'.threads[c].next == m.hdr.num + 2
  {
  }

  /** A client with two requests issued, the second a put that is pending. */
  ghost predicate TwoIssued(parties: map<ClientId, Party>, c: ClientId, start: SeqNumber)
    requires start + 6 <= SEQ_SPAN
  {
    && c in parties && parties[c].start == start && parties[c].count == 2
    && var t := parties[c].client.slots[Slot(start, 1)];
       t.valid && t.hdr == SeqOp(start + 2, c, RDMA_PUT) && t.hdr.RingIndex() == Slot(start, 1)
  }

  lemma SecondIssue(w0: World, w: World, c: ClientId, a: Call, b: Call)
    requires Initial(w0) && c in w0.parties && a.Valid() && b.Valid() && b.op == RDMA_PUT
    requires w0.parties[c].start + 6 <= SEQ_SPAN && w.parties == Next(w0, IssueStep(c, a)).parties
    ensures Possible(w, IssueStep(c, b))
    ensures var w', m := Next(w, IssueStep(c, b)), Message(SeqOp(w0.parties[c].start + 2, c, RDMA_PUT), b.key, b.value);
            && TwoIssued(w'.parties, c, w0.parties[c].start) && w'.threads == w.threads
            && w'.log == w.log + [Issue(m.hdr, b)] && w'.sent == w.sent + {m}
  {
    var start := w0.parties[c].start;
    NumberedFacts(start, 0);
    NumberedFacts(start, 1);
    assert !w0.parties[c].client.slots[Slot(start, 1)].valid;
  }

  lemma TakenForAnswer(w: World, c: ClientId, start: SeqNumber, r: Message) returns (d: Completion)
    requires start + 6 <= SEQ_SPAN && TwoIssued(w.parties, c, start)
    requires r in w.sent && r.hdr == SeqOp(start + 3, c, RDMA_PUT)
    ensures Possible(w, RespondStep(c, 1, Genuine(r)))
    ensures Next(w, RespondStep(c, 1, Genuine(r))).log == w.log + [Done(d)]
    ensures d.hdr == SeqOp(start + 2, c, RDMA_PUT) && d.ret == OP_SUCCESS
  {
    var client, i := w.parties[c].client, Slot(start, 1);
    var t := client.slots[i];
    hide Slot;
    assert r.hdr.SameBase(t.hdr.Next()) && r.hdr.Prev().RingIndex() == i;
    d := Continue(client, i, Genuine(r)).done.value;
  }

  /** The first request and its reply, both executed. */
  lemma ReplyReflected(w0: World, c: ClientId, a: Call, env: Surroundings) returns (s1: Step, w1: World, s2: Step, w2: World, s3: Step, w3: World)
    requires Initial(w0) && c in w0.parties && c in w0.threads && w0.parties[c].start + 6 <= SEQ_SPAN
    requires a.Valid() && a.op == RDMA_PUT && !env.putFails && !env.encryptFails && MIN_MSG_LEN <= env.maxMsgSize
    ensures Possible(w0, s1) && w1 == Next(w0, s1) && Possible(w1, s2) && w2 == Next(w1, s2)
    ensures Possible(w2, s3) && w3 == Next(w2, s3) && w3.parties == Next(w0, IssueStep(c, a)).parties
    ensures var start := w0.parties[c].start;
            var x, r1 := Message(SeqOp(start, c, RDMA_PUT), a.key, a.value), Message(SeqOp(start + 1, c, RDMA_PUT), [], []);
            && w3.log == [Issue(x.hdr, a)] + [Exec(x, Ok([]))] + [Exec(r1, Ok([]))]
            && c in w3.threads && w3.threads[c].next == start + 3 && Message(SeqOp(start + 2, c, RDMA_PUT), [], []) in w3.sent
  {
    var start := w0.parties[c].start;
    FirstIssue(w0, c, a);
    assert w0.threads[c].next == 0;
    var x := Message(SeqOp(start, c, RDMA_PUT), a.key, a.value);
    var r1 := Message(SeqOp(start + 1, c, RDMA_PUT), [], []);
    hide Next, Possible, Initial;
    s1, s2, s3 := IssueStep(c, a), ServeStep(c, x, env), ServeStep(c, r1, env);
    w1 := Next(w0, s1);
    ServePut(w1, c, x, env);
    w2 := Next(w1, s2);
    ServePut(w2, c, r1, env);
    w3 := Next(w2, s3);
  }

  /** A thread that is handed its own reply runs it as a request, and numbers the reply to that
      like the client's next request. Handed this one too, it answers the next request in
      advance: a put succeeds that never reached the store, whatever its key and value. */
  lemma SuccessWithoutExecution(w0: World, c: ClientId, a: Call, b: Call) returns (steps: seq<Step>, w: World, d: Completion)
    requires Initial(w0) && c in w0.parties && c in w0.threads && w0.parties[c].start + 6 <= SEQ_SPAN
    requires a.Valid() && b.Valid() && a.op == RDMA_PUT && b.op == RDMA_PUT && b.key != a.key && b.key != []
    ensures PossibleRun(w0, steps, w) && w.log != [] && w.log[|w.log| - 1] == Done(d)
    ensures Issue(d.hdr, b) in w.log && d.ret == OP_SUCCESS
    ensures forall m, out | Exec(m, out) in w.log :: m.key != b.key
  {
    hide Next, Possible, Initial, PossibleRun, TwoIssued;
    var start := w0.parties[c].start;
    var env := Surroundings(false, false, MIN_MSG_LEN);
    var s1, w1, s2, w2, s3, w3 := ReplyReflected(w0, c, a, env);
    var x := Message(SeqOp(start, c, RDMA_PUT), a.key, a.value);
    var r1 := Message(SeqOp(start + 1, c, RDMA_PUT), [], []);
    var r2 := Message(SeqOp(start + 2, c, RDMA_PUT), [], []);
    var r3 := Message(SeqOp(start + 3, c, RDMA_PUT), [], []);
    var s4, s5, s6 := IssueStep(c, b), ServeStep(c, r2, env), RespondStep(c, 1, Genuine(r3));
    SecondIssue(w0, w3, c, a, b);
    var w4 := Next(w3, s4);
    ServePut(w4, c, r2, env);
    var w5 := Next(w4, s5);
    d := TakenForAnswer(w5, c, start, r3);
    w := Next(w5, s6);
    steps := [] + [s1] + [s2] + [s3] + [s4] + [s5] + [s6];
    SixSteps(w0, s1, w1, s2, w2, s3, w3, s4, w4, s5, w5, s6);
    OnlyOthers([Issue(x.hdr, a)], x, r1, Issue(d.hdr, b), r2, d, b.key);
  }

  lemma OnlyOthers(log: seq<Event>, x: Message, r1: Message, issue: Event, r2: Message, d: Completion, key: Bytes)
    requires issue.Issue? && key !in {x.key, r1.key, r2.key} && forall e | e in log :: !e.Exec?
    ensures var all := log + [Exec(x, Ok([]))] + [Exec(r1, Ok([]))] + [issue] + [Exec(r2, Ok([]))] + [Done(d)];
            issue in all && forall m, out | Exec(m, out) in all :: m.key != key
  {
  }

  lemma SixSteps(w0: World, s1: Step, w1: World, s2: Step, w2: World, s3: Step, w3: World,
        s4: Step, w4: World, s5: Step, w5: World, s6: Step)
    requires Possible(w0, s1) && w1 == Next(w0, s1) && Possible(w1, s2) && w2 == Next(w1, s2)
    requires Possible(w2, s3) && w3 == Next(w2, s3) && Possible(w3, s4) && w4 == Next(w3, s4)
    requires Possible(w4, s5) && w5 == Next(w4, s5) && Possible(w5, s6)
    ensures PossibleRun(w0, [] + [s1] + [s2] + [s3] + [s4] + [s5] + [s6], Next(w5, s6))
  {
    hide Possible, Next, PossibleRun;
    PossibleNothing(w0);
    PossibleMore(w0, [], w0, s1);
    PossibleMore(w0, [] + [s1], w1, s2);
    PossibleMore(w0, [] + [s1] + [s2], w2, s3);
    PossibleMore(w0, [] + [s1] + [s2] + [s3], w3, s4);
    PossibleMore(w0, [] + [s1] + [s2] + [s3] + [s4], w4, s5);
    PossibleMore(w0, [] + [s1] + [s2] + [s3] + [s4] + [s5], w5, s6);
  }

  // ---- an error returned -------------------------------------------------------------------

  /** An error message with the number of a pending request, which only the reply to a reply can
      be: handed to any thread, it is answered, and the answer fails the request. */
  lemma EchoedErrorFails(w0: World, w: World, t: ClientId, m: Message, env: Surroundings, n: nat, x: SeqOp) returns (d: Completion)
    requires Reachable(w0, w) && Possible(w, ServeStep(t, m, env)) && m.hdr.op == RDMA_ERR && Sendable(ReplyTo(m.hdr, Failed), env)
    requires x.SameBase(m.hdr) && Pending(w.log, x) && x.op != RDMA_ERR && x.id in w.parties
    requires n < w.parties[x.id].count && Slot(w.parties[x.id].start, n) == x.RingIndex()
    ensures var w1, s := Next(w, ServeStep(t, m, env)), RespondStep(x.id, n, Genuine(ReplyTo(m.hdr, Failed)));
            Possible(w1, s) && Next(w1, s).log == w.log + [Done(d)]
    ensures d.hdr == x && d.ret == OP_FAILED
  {
    RingHoldsNewest(w0, w, x.id, x.RingIndex());
    hide Reachable, Pending, Slot, Continue;
    var reply := ReplyTo(m.hdr, Failed);
    ErrorStep(w, t, m, env);
    d := ErrorEnds(w.parties[x.id].client, x.RingIndex(), x, reply);
  }

  lemma ErrorEnds(c: Client, i: nat, x: SeqOp, reply: Message) returns (d: Completion)
    requires i == x.RingIndex() && c.slots[i].valid && c.slots[i].hdr == x && x.op != RDMA_ERR
    requires reply.hdr == x.Next().SetOp(RDMA_ERR)
    ensures Continue(c, i, Genuine(reply)).done == Some(d) && d.hdr == x && d.ret == OP_FAILED
  {
    assert reply.hdr.Prev().RingIndex() == i;
    d := Continue(c, i, Genuine(reply)).done.value;
  }

  lemma ServeFailingPut(w: World, c: ClientId, m: Message, env: Surroundings)
    requires c in w.threads && m in w.sent && m.hdr.op == RDMA_PUT && m.hdr.id == c
    requires InWindow(w.threads[c].next, m.hdr.num) && m.hdr.num + 2 < SEQ_SPAN
    requires env.putFails && !env.encryptFails && MIN_MSG_LEN <= env.maxMsgSize
    ensures Possible(w, ServeStep(c, m, env))
    ensures var w', r := Next(w, ServeStep(c, m, env)), Message(m.hdr.Next().SetOp(RDMA_ERR), [], []);
            && w'.parties == w.parties && w'.sent == w.sent + {r} && w'.log == w.log + [Exec(m, Failed)] && c in w'.threads
  {
  }

  lemma ServeError(w: World, c: ClientId, m: Message, env: Surroundings)
    requires c in w.threads && m in w.sent && m.hdr.op == RDMA_ERR
    requires !env.encryptFails && MIN_MSG_LEN <= env.maxMsgSize
    ensures Possible(w, ServeStep(c, m, env))
    ensures var w', r := Next(w, ServeStep(c, m, env)), Message(m.hdr.Next(), [], []);
            && w'.parties == w.parties && w'.sent == w.sent + {r} && w'.log == w.log && c in w'.threads
  {
    assert w.log + [] == w.log;
  }

  lemma TakenForFailure(w: World, c: ClientId, start: SeqNumber, r: Message) returns (d: Completion)
    requires start + 6 <= SEQ_SPAN && TwoIssued(w.parties, c, start)
    requires r in w.sent && r.hdr == SeqOp(start + 3, c, RDMA_ERR)
    ensures Possible(w, RespondStep(c, 1, Genuine(r)))
    ensures Next(w, RespondStep(c, 1, Genuine(r))).log == w.log + [Done(d)]
    ensures d.hdr == SeqOp(start + 2, c, RDMA_PUT) && d.ret == OP_FAILED
  {
    var client, i := w.parties[c].client, Slot(start, 1);
    var t := client.slots[i];
    hide Slot;
    assert r.hdr.SameBase(t.hdr.Next()) && r.hdr.Prev().RingIndex() == i;
    d := Continue(client, i, Genuine(r)).done.value;
  }

  lemma ErrorReflected(w0: World, c: ClientId, a: Call, env: Surroundings) returns (s1: Step, w1: World, s2: Step, w2: World, s3: Step, w3: World)
    requires Initial(w0) && c in w0.parties && c in w0.threads && w0.parties[c].start + 6 <= SEQ_SPAN
    requires a.Valid() && a.op == RDMA_PUT && env.putFails && !env.encryptFails && MIN_MSG_LEN <= env.maxMsgSize
    ensures Possible(w0, s1) && w1 == Next(w0, s1) && Possible(w1, s2) && w2 == Next(w1, s2)
    ensures Possible(w2, s3) && w3 == Next(w2, s3) && w3.parties == Next(w0, IssueStep(c, a)).parties
    ensures var start := w0.parties[c].start;
            var x := Message(SeqOp(start, c, RDMA_PUT), a.key, a.value);
            && w3.log == [Issue(x.hdr, a)] + [Exec(x, Failed)]
            && c in w3.threads && Message(SeqOp(start + 2, c, RDMA_ERR), [], []) in w3.sent
  {
    var start := w0.parties[c].start;
    FirstIssue(w0, c, a);
    assert w0.threads[c].next == 0;
    var x := Message(SeqOp(start, c, RDMA_PUT), a.key, a.value);
    var r1 := Message(SeqOp(start + 1, c, RDMA_ERR), [], []);
    hide Next, Possible, Initial;
    s1, s2, s3 := IssueStep(c, a), ServeStep(c, x, env), ServeStep(c, r1, env);
    w1 := Next(w0, s1);
    ServeFailingPut(w1, c, x, env);
    w2 := Next(w1, s2);
    ServeError(w2, c, r1, env);
    w3 := Next(w2, s3);
  }

  /** The same with the reply to a failed put: though it executes nothing, returning it and then
      the reply to it fails the next put, which never reached the store. */
  lemma FailureWithoutExecution(w0: World, c: ClientId, a: Call, b: Call) returns (steps: seq<Step>, w: World, d: Completion)
    requires Initial(w0) && c in w0.parties && c in w0.threads && w0.parties[c].start + 6 <= SEQ_SPAN
    requires a.Valid() && b.Valid() && a.op == RDMA_PUT && b.op == RDMA_PUT
    ensures PossibleRun(w0, steps, w) && w.log != [] && w.log[|w.log| - 1] == Done(d)
    ensures Issue(d.hdr, b) in w.log && d.ret == OP_FAILED && !ExecutedIn(w.log, d.hdr)
  {
    hide Next, Possible, Initial, PossibleRun, TwoIssued;
    var start := w0.parties[c].start;
    var env := Surroundings(true, false, MIN_MSG_LEN);
    var s1, w1, s2, w2, s3, w3 := ErrorReflected(w0, c, a, env);
    var x := Message(SeqOp(start, c, RDMA_PUT), a.key, a.value);
    var r2 := Message(SeqOp(start + 2, c, RDMA_ERR), [], []);
    var r3 := Message(SeqOp(start + 3, c, RDMA_ERR), [], []);
    var s4, s5, s6 := IssueStep(c, b), ServeStep(c, r2, env), RespondStep(c, 1, Genuine(r3));
    SecondIssue(w0, w3, c, a, b);
    var w4 := Next(w3, s4);
    ServeError(w4, c, r2, env);
    var w5 := Next(w4, s5);
    d := TakenForFailure(w5, c, start, r3);
    w := Next(w5, s6);
    steps := [] + [s1] + [s2] + [s3] + [s4] + [s5] + [s6];
    SixSteps(w0, s1, w1, s2, w2, s3, w3, s4, w4, s5, w5, s6);
    assert w.log == [Issue(x.hdr, a)] + [Exec(x, Failed)] + [Issue(d.hdr, b)] + [Done(d)];
  }
}

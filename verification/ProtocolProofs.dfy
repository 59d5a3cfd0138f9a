/** The invariant of the protocol holds in every reachable state. */
module ProtocolProofs {
  import opened SeqOps
  import opened Messages
  import opened Server
  import opened Clients
  import opened Histories
  import opened Protocol

  // ---- one event more ----------------------------------------------------------------------

  lemma CompletedAppend(log: seq<Event>, e: Event, id: ClientId)
    ensures Completed(log + [e], id) == Completed(log, id) + if e.Done? && e.done.hdr.id == id then 1 else 0
  {
    assert (log + [e])[..|log|] == log;
  }

  lemma DoneAppend(log: seq<Event>, e: Event, x: SeqOp)
    ensures DoneIn(log + [e], x) <==> DoneIn(log, x) || (e.Done? && x.SameBase(e.done.hdr))
  {
    if DoneIn(log, x) {
      var d :| Done(d) in log && x.SameBase(d.hdr);
      assert Done(d) in log + [e];
    }
    if e.Done? && x.SameBase(e.done.hdr) {
      assert Done(e.done) in log + [e];
    }
  }

  /** An event that does not concern a client leaves its invariant alone. */
  lemma PartyFrame(id: ClientId, p: Party, log: seq<Event>, e: Event)
    requires PartyOk(id, p, log)
    requires (e.Issue? ==> e.x.id != id) && (e.Done? ==> e.done.hdr.id != id)
    ensures PartyOk(id, p, log + [e])
  {
    var log' := log + [e];
    CompletedAppend(log, e, id);
    forall i: nat | i < RING_SIZE ensures SlotOk(id, p, i, log') {
      var t := p.client.slots[i];
      assert SlotOk(id, p, i, log);
      if t.valid {
        DoneAppend(log, e, t.hdr);
        var call :| Issue(t.hdr, call) in log && Matches(t, call);
        assert Issue(t.hdr, call) in log';
      }
    }
    forall x, call | Issue(x, call) in log' && x.id == id
      ensures DoneIn(log', x) || (p.client.slots[x.RingIndex()].valid && p.client.slots[x.RingIndex()].hdr == x)
    {
      DoneAppend(log, e, x);
    }
  }

  lemma NetworkFrame(w: World, w': World, e: Event)
    requires NetworkOk(w) && w'.log == w.log + [e] && w'.sent <= w.sent
    ensures NetworkOk(w')
  {
    forall r | r in w'.sent ensures Known(w'.log, r) {
      KnownGrows(w.log, e, r);
    }
  }

  lemma IssuesFrame(w: World, w': World, e: Event)
    requires IssuesOk(w) && w'.log == w.log + [e] && !e.Issue? && w'.parties.Keys == w.parties.Keys
    requires forall c | c in w.parties ::
               w'.parties[c].start == w.parties[c].start && w'.parties[c].count == w.parties[c].count
    ensures IssuesOk(w')
  {
    assert forall x, call :: Issue(x, call) in w'.log <==> Issue(x, call) in w.log;
  }

  lemma IssuesSame(w: World, w': World)
    requires IssuesOk(w) && w'.log == w.log && w'.parties.Keys == w.parties.Keys
    requires forall c | c in w.parties ::
               w'.parties[c].start == w.parties[c].start && w'.parties[c].count == w.parties[c].count
    ensures IssuesOk(w')
  {
  }

  lemma IssuedGrows(log: seq<Event>, e: Event, m: Message)
    requires IssuedAs(log, m)
    ensures IssuedAs(log + [e], m)
  {
    var call :| Issue(m.hdr, call) in log && m.key == call.key && m.value == call.value;
    assert Issue(m.hdr, call) in log + [e];
  }

  lemma RepliedGrows(log: seq<Event>, e: Event, r: Message)
    requires Replied(log, r)
    ensures Replied(log + [e], r)
  {
    var q: Message, out :| r == ReplyTo(q.hdr, out) && IssuedAs(log, q)
                           && if q.hdr.op == RDMA_ERR then out == Failed else Exec(q, out) in log;
    IssuedGrows(log, e, q);
    assert Exec(q, out) in log ==> Exec(q, out) in log + [e];
  }

  lemma KnownGrows(log: seq<Event>, e: Event, r: Message)
    requires Known(log, r)
    ensures Known(log + [e], r)
  {
    if IssuedAs(log, r) {
      IssuedGrows(log, e, r);
    } else if Replied(log, r) {
      RepliedGrows(log, e, r);
    } else {
      var q: Message, out :| Replied(log, q) && r == ReplyTo(q.hdr, out);
      RepliedGrows(log, e, q);
    }
  }

  // ---- whose numbers are whose -------------------------------------------------------------

  lemma RequestOnGrid(w: World, m: Message)
    requires IssuesOk(w) && IssuedAs(w.log, m)
    ensures m.hdr.id in w.parties && OnGrid(w.parties[m.hdr.id].start, m.hdr.num)
  {
    var call :| Issue(m.hdr, call) in w.log;
  }

  lemma ReplyOffGrid(w: World, r: Message)
    requires IssuesOk(w) && Replied(w.log, r)
    ensures r.hdr.id in w.parties && !OnGrid(w.parties[r.hdr.id].start, r.hdr.num)
  {
    hide IssuesOk, IssuedAs, OnGrid;
    var q: Message, out :| r == ReplyTo(q.hdr, out) && IssuedAs(w.log, q);
    RequestOnGrid(w, q);
    ResponseOffGrid(w.parties[q.hdr.id].start, q.hdr.num);
  }

  lemma EchoOnGrid(w: World, r: Message)
    requires IssuesOk(w) && Echoed(w.log, r)
    ensures r.hdr.id in w.parties && OnGrid(w.parties[r.hdr.id].start, r.hdr.num)
  {
    hide IssuesOk, Replied, OnGrid;
    var q: Message, out :| Replied(w.log, q) && r == ReplyTo(q.hdr, out);
    ReplyOffGrid(w, q);
    ResponseOffGrid(w.parties[q.hdr.id].start, q.hdr.num);
  }

  /** A message that is in none of a client's numbers is a reply to a request. */
  lemma OffGridIsReply(w: World, m: Message)
    requires IssuesOk(w) && NetworkOk(w) && m in w.sent && m.hdr.id in w.parties
    requires !OnGrid(w.parties[m.hdr.id].start, m.hdr.num)
    ensures Replied(w.log, m)
  {
    hide IssuesOk, OnGrid, Replied, Echoed, IssuedAs;
    assert Known(w.log, m);
    if IssuedAs(w.log, m) { RequestOnGrid(w, m); }
    if Echoed(w.log, m) { EchoOnGrid(w, m); }
  }

  lemma OffGridNotIssued(w: World, x: SeqOp)
    requires IssuesOk(w) && x.id in w.parties && !OnGrid(w.parties[x.id].start, x.num)
    ensures !IssuedIn(w.log, x)
  {
  }

  // ---- issuing a request -------------------------------------------------------------------

  lemma FreshNumber(w: World, c: ClientId)
    requires IssuesOk(w) && c in w.parties && PartyOk(c, w.parties[c], w.log)
    ensures !IssuedIn(w.log, w.parties[c].client.cur)
  {
    var p := w.parties[c];
    NumberedFacts(p.start, p.count);
  }

  /** Only issued numbers end. */
  lemma OnlyIssuedEnd(kv: Store, log: seq<Event>, x: SeqOp)
    requires Legal(kv, log) && DoneIn(log, x)
    ensures IssuedIn(log, x)
  {
    var d :| Done(d) in log && x.SameBase(d.hdr);
    var i := PlaceOf(log, |log|, Done(d)) by { assert log[..|log|] == log; }
    assert Justified(kv, log[..i], log[i]);
    var call :| Issue(d.hdr, call) in log[..i];
    assert Issue(d.hdr, call) in log;
  }

  /** What is executed was issued, or is in none of a client's numbers. */
  lemma ExecutedNumbers(kv: Store, w: World, x: SeqOp)
    requires Legal(kv, w.log) && IssuesOk(w) && ExecutedIn(w.log, x)
    ensures IssuedIn(w.log, x) || (x.id in w.parties && !OnGrid(w.parties[x.id].start, x.num))
  {
    var log := w.log;
    var m, out :| Exec(m, out) in log && x.SameBase(m.hdr);
    var i := PlaceOf(log, |log|, Exec(m, out)) by { assert log[..|log|] == log; }
    assert Justified(kv, log[..i], log[i]);
    hide IssuesOk, OnGrid, Legal, ExecutedIn, KvCall, Stray, IssuedIn, IssuedAs;
    if IssuedAs(log[..i], m) {
      IssuedInPart(log, i, m);
      SameNumber(log, x, m.hdr);
    } else {
      var q, v := StrayAnswer(log[..i], m);
      IssuedInPart(log, i, q);
      RequestOnGrid(w, q);
      ResponseOffGrid(w.parties[q.hdr.id].start, q.hdr.num);
    }
  }

  lemma SameNumber(log: seq<Event>, x: SeqOp, y: SeqOp)
    requires x.SameBase(y) && IssuedIn(log, y)
    ensures IssuedIn(log, x)
  {
    var z, call :| Issue(z, call) in log && y.SameBase(z);
    assert x.SameBase(z);
  }

  lemma IssuedInPart(log: seq<Event>, i: nat, m: Message)
    requires i <= |log| && IssuedAs(log[..i], m)
    ensures IssuedAs(log, m) && IssuedIn(log, m.hdr)
  {
    var call :| Issue(m.hdr, call) in log[..i] && m.key == call.key && m.value == call.value;
    assert Issue(m.hdr, call) in log;
  }

  lemma ValidSlotsUpdate(slots: Ring, i: nat, t: Tag)
    requires i < RING_SIZE
    ensures |ValidSlots(slots[i := t])| ==
            |ValidSlots(slots)| - (if slots[i].valid then 1 else 0) + (if t.valid then 1 else 0)
  {
    var s, s' := ValidSlots(slots), ValidSlots(slots[i := t]);
    assert s' == if t.valid then s + {i} else s - {i};
    assert i in s <==> slots[i].valid;
  }

  /** A slot of another index belongs to another number, and is not outdated by one request. */
  lemma SlotDistance(start: SeqNumber, count: nat, x: SeqOp)
    requires OnGrid(start, x.num) && Ordinal(start, x.num) < count <= Ordinal(start, x.num) + RING_SIZE
    requires x.RingIndex() != Slot(start, count)
    ensures count + 1 <= Ordinal(start, x.num) + RING_SIZE
  {
    hide Numbered, Ordinal, OnGrid, Slot, NextNumber;
    var n := Ordinal(start, x.num);
    OrdinalInverse(start, x.num);
    NumberedFacts(start, n);
    SlotPeriod(start, n);
  }

  lemma IssueParty(id: ClientId, p: Party, log: seq<Event>, call: Call)
    requires PartyOk(id, p, log) && !QueueFull(p.client) && p.count + 1 < MAX_REQUESTS
    requires !DoneIn(log, p.client.cur)
    ensures PartyOk(id, Party(Sent(p.client, call), p.start, p.count + 1),
                    log + [Issue(p.client.cur.SetOp(call.op), call)])
  {
    var x := p.client.cur.SetOp(call.op);
    var e := Issue(x, call);
    var p', log' := Party(Sent(p.client, call), p.start, p.count + 1), log + [e];
    var k := p.client.cur.RingIndex();
    NumberedFacts(p.start, p.count);
    CompletedAppend(log, e, id);
    ValidSlotsUpdate(p.client.slots, k, p'.client.slots[k]);
    forall i: nat | i < RING_SIZE ensures SlotOk(id, p', i, log') {
      var t := p'.client.slots[i];
      assert SlotOk(id, p, i, log);
      if t.valid {
        DoneAppend(log, e, t.hdr);
        if i != k {
          SlotDistance(p.start, p.count, t.hdr);
          var called :| Issue(t.hdr, called) in log && Matches(t, called);
          assert Issue(t.hdr, called) in log';
        } else {
          assert DoneIn(log, t.hdr) ==> DoneIn(log, p.client.cur);
          assert Issue(t.hdr, call) in log' && Matches(t, call);
        }
      }
    }
    forall y, called | Issue(y, called) in log' && y.id == id
      ensures DoneIn(log', y) || (p'.client.slots[y.RingIndex()].valid && p'.client.slots[y.RingIndex()].hdr == y)
    {
      DoneAppend(log, e, y);
      if Issue(y, called) in log && y.RingIndex() == k {
        assert !p.client.slots[k].valid;
      }
    }
    forall n: nat | n < p'.count
      ensures p'.client.slots[Slot(p.start, n)].hdr.RingIndex() == Slot(p.start, n)
    {
      if n < p.count { assert p.client.slots[Slot(p.start, n)].hdr.RingIndex() == Slot(p.start, n); }
    }
  }

  lemma IssueJustified(kv: Store, w: World, c: ClientId, call: Call)
    requires Inv(kv, w) && Enabled(w, IssueStep(c, call))
    ensures var cur := w.parties[c].client.cur;
            && !IssuedIn(w.log, cur) && !DoneIn(w.log, cur) && cur.id == c
            && Justified(kv, w.log, Issue(cur.SetOp(call.op), call))
  {
    var cur := w.parties[c].client.cur;
    FreshNumber(w, c);
    NumberedFacts(w.parties[c].start, w.parties[c].count);
    assert IssuedIn(w.log, cur.SetOp(call.op)) ==> IssuedIn(w.log, cur);
    assert ExecutedIn(w.log, cur.SetOp(call.op)) ==> ExecutedIn(w.log, cur);
    if DoneIn(w.log, cur) { OnlyIssuedEnd(kv, w.log, cur); }
    if ExecutedIn(w.log, cur) { ExecutedNumbers(kv, w, cur); }
  }

  lemma IssueKeeps(kv: Store, w: World, c: ClientId, call: Call)
    requires Inv(kv, w) && Enabled(w, IssueStep(c, call))
    ensures Inv(kv, Next(w, IssueStep(c, call)))
  {
    hide PartyOk, IssuesOk, NetworkOk, Legal, Justified, IssuedIn, DoneIn, Sent, QueueFull;
    var p, w' := w.parties[c], Next(w, IssueStep(c, call));
    var e := Issue(RequestOf(p.client, call).hdr, call);
    IssueJustified(kv, w, c, call);
    LegalAppend(kv, w.log, e);
    forall id | id in w'.parties ensures PartyOk(id, w'.parties[id], w'.log) {
      if id == c { IssueParty(id, p, w.log, call); } else { PartyFrame(id, w.parties[id], w.log, e); }
    }
    IssueIssuesOk(w, c, call);
    IssueNetworkOk(w, c, call);
  }

  lemma IssueIssuesOk(w: World, c: ClientId, call: Call)
    requires Enabled(w, IssueStep(c, call)) && IssuesOk(w) && PartyOk(c, w.parties[c], w.log)
    requires !IssuedIn(w.log, w.parties[c].client.cur)
    ensures IssuesOk(Next(w, IssueStep(c, call)))
  {
    var p, w' := w.parties[c], Next(w, IssueStep(c, call));
    var cur := p.client.cur;
    NumberedFacts(p.start, p.count);
    assert forall x, called | Issue(x, called) in w.log :: !cur.SameBase(x);
  }

  lemma IssueNetworkOk(w: World, c: ClientId, call: Call)
    requires Enabled(w, IssueStep(c, call)) && NetworkOk(w)
    ensures NetworkOk(Next(w, IssueStep(c, call)))
  {
    var w' := Next(w, IssueStep(c, call));
    var m := RequestOf(w.parties[c].client, call);
    var e := Issue(m.hdr, call);
    assert e in w'.log && IssuedAs(w'.log, m);
    forall r | r in w'.sent ensures Known(w'.log, r) {
      if r != m { KnownGrows(w.log, e, r); }
    }
  }

  // ---- steps that end no request -----------------------------------------------------------

  /** A change of the caller's memory, or of free slots that keep a header of their index. */
  lemma QuietParty(id: ClientId, p: Party, client: Client, log: seq<Event>)
    requires PartyOk(id, p, log) && client.cur == p.client.cur
    requires forall i | 0 <= i < RING_SIZE ::
               client.slots[i] == p.client.slots[i] ||
               (!client.slots[i].valid && !p.client.slots[i].valid && client.slots[i].hdr.RingIndex() == i)
    ensures PartyOk(id, p.(client := client), log)
  {
    var p' := p.(client := client);
    assert ValidSlots(client.slots) == ValidSlots(p.client.slots);
    forall i: nat | i < RING_SIZE ensures SlotOk(id, p', i, log) {
      assert SlotOk(id, p, i, log);
    }
    forall n: nat | n < p'.count
      ensures p'.client.slots[Slot(p.start, n)].hdr.RingIndex() == Slot(p.start, n)
    {
      assert p.client.slots[Slot(p.start, n)].hdr.RingIndex() == Slot(p.start, n);
    }
  }

  lemma QuietKeeps(kv: Store, w: World, c: ClientId, client: Client)
    requires Inv(kv, w) && c in w.parties && client.cur == w.parties[c].client.cur
    requires forall i | 0 <= i < RING_SIZE ::
               client.slots[i] == w.parties[c].client.slots[i] ||
               (!client.slots[i].valid && !w.parties[c].client.slots[i].valid && client.slots[i].hdr.RingIndex() == i)
    ensures Inv(kv, WithClient(w, c, client, []))
  {
    hide PartyOk, IssuesOk, Legal;
    var w' := WithClient(w, c, client, []);
    assert w'.log == w.log;
    IssuesSame(w, w');
    QuietParty(c, w.parties[c], client, w.log);
    assert forall id | id in w'.parties && id != c :: w'.parties[id] == w.parties[id];
  }

  lemma FailKeeps(kv: Store, w: World, c: ClientId, call: Call)
    requires Inv(kv, w) && Enabled(w, FailStep(c, call))
    ensures Inv(kv, Next(w, FailStep(c, call)))
  {
    QuietKeeps(kv, w, c, Unsent(w.parties[c].client, call));
  }

  // ---- serving a request -------------------------------------------------------------------

  /** The reply to what a thread may be handed. */
  lemma ReplyKnown(w: World, m: Message, out: Outcome)
    requires IssuesOk(w) && NetworkOk(w) && m in w.sent && Admissible(w, m)
    requires if m.hdr.op == RDMA_ERR then out == Failed else Exec(m, out) in w.log
    ensures Known(w.log, ReplyTo(m.hdr, out))
  {
    if !IssuedAs(w.log, m) { OffGridIsReply(w, m); }
  }

  /** What a thread may be handed, the history allows to be executed. */
  lemma ServeJustified(kv: Store, w: World, m: Message, out: Outcome)
    requires Inv(kv, w) && m in w.sent && Admissible(w, m) && m.hdr.op != RDMA_ERR
    requires out == KvCall(w.kv, m, out.Failed?).1
    ensures Justified(kv, w.log, Exec(m, out))
  {
    if !Asked(w.log, m) {
      OffGridIsReply(w, m);
      OffGridNotIssued(w, m.hdr);
      hide IssuesOk, NetworkOk, Legal, PartyOk;
      var q: Message, o :| m == ReplyTo(q.hdr, o) && IssuedAs(w.log, q)
                           && if q.hdr.op == RDMA_ERR then o == Failed else Exec(q, o) in w.log;
      assert Exec(q, Ok(o.value)) in w.log;
    }
  }

  /** A call can be replayed from its outcome. */
  lemma OutcomeDecides(kv: Store, m: Message, putFails: bool)
    requires m.hdr.op != RDMA_ERR
    ensures KvCall(kv, m, KvCall(kv, m, putFails).1.Failed?) == KvCall(kv, m, putFails)
  {
  }

  lemma ExecKeeps(kv: Store, w: World, w': World, m: Message, putFails: bool)
    requires Inv(kv, w) && m in w.sent && Admissible(w, m) && m.hdr.op != RDMA_ERR
    requires var (kv', out) := KvCall(w.kv, m, putFails);
             && w'.kv == kv' && w'.log == w.log + [Exec(m, out)]
             && w'.sent <= w.sent + {ReplyTo(m.hdr, out)}
    requires w'.parties == w.parties
    ensures Inv(kv, w')
  {
    hide KvCall, PartyOk, IssuesOk, Legal, Justified, Admissible;
    var out := KvCall(w.kv, m, putFails).1;
    var e := Exec(m, out);
    OutcomeDecides(w.kv, m, putFails);
    ServeJustified(kv, w, m, out);
    LegalAppend(kv, w.log, e);
    IssuesFrame(w, w', e);
    ExecNetworkOk(w, w', m, out);
    forall id | id in w'.parties ensures PartyOk(id, w'.parties[id], w'.log) {
      PartyFrame(id, w.parties[id], w.log, e);
    }
  }

  lemma ExecNetworkOk(w: World, w': World, m: Message, out: Outcome)
    requires NetworkOk(w) && IssuesOk(w) && IssuesOk(w') && m in w.sent && Admissible(w, m) && m.hdr.op != RDMA_ERR
    requires w'.parties == w.parties && w'.log == w.log + [Exec(m, out)]
    requires w'.sent <= w.sent + {ReplyTo(m.hdr, out)}
    ensures NetworkOk(w')
  {
    hide IssuesOk;
    var before := w'.(sent := w.sent);
    assert IssuesOk(before) by { IssuesSame(w', before); }
    NetworkFrame(w, before, Exec(m, out));
    if IssuedAs(w.log, m) { IssuedGrows(w.log, Exec(m, out), m); } else { OffGridIsReply(before, m); }
    assert Exec(m, out) in w'.log;
  }

  /** A rejected message changes nothing. */
  lemma RejectedIdle(w: World, t: ClientId, m: Message, env: Surroundings)
    requires Possible(w, ServeStep(t, m, env)) && Rejected(w, t, m, env)
    ensures Next(w, ServeStep(t, m, env)) == w
  {
    hide KvCall;
    assert w.threads[t := w.threads[t]] == w.threads;
  }

  lemma ServeKeeps(kv: Store, w: World, t: ClientId, m: Message, env: Surroundings)
    requires Inv(kv, w) && Enabled(w, ServeStep(t, m, env))
    ensures Inv(kv, Next(w, ServeStep(t, m, env)))
  {
    if Rejected(w, t, m, env) {
      RejectedIdle(w, t, m, env);
    } else {
      AdmittedKeeps(kv, w, t, m, env);
    }
  }

  lemma AdmittedKeeps(kv: Store, w: World, t: ClientId, m: Message, env: Surroundings)
    requires Inv(kv, w) && Possible(w, ServeStep(t, m, env)) && Admissible(w, m)
    ensures Inv(kv, Next(w, ServeStep(t, m, env)))
  {
    hide KvCall, PartyOk, IssuesOk, Legal, Admissible;
    var w' := Next(w, ServeStep(t, m, env));
    if Handle(t, w.threads[t], w.kv, m, env).executed.Some? {
      ExecKeeps(kv, w, w', m, env.putFails);
    } else {
      assert w'.log == w.log;
      IssuesSame(w, w');
      if m.hdr.op == RDMA_ERR { ReplyKnown(w, m, Failed); }
    }
  }

  // ---- ending a request --------------------------------------------------------------------

  lemma EndParty(id: ClientId, p: Party, client: Client, k: nat, ret: Ret, log: seq<Event>)
    requires PartyOk(id, p, log) && client.cur == p.client.cur && client.slots == p.client.slots
    requires k < RING_SIZE && client.slots[k].valid
    ensures PartyOk(id, p.(client := Invalidated(client, k)), log + [Done(CompletionOf(client, k, ret))])
  {
    var d := CompletionOf(client, k, ret);
    var e := Done(d);
    var p', log' := p.(client := Invalidated(client, k)), log + [e];
    assert SlotOk(id, p, k, log);
    CompletedAppend(log, e, id);
    ValidSlotsUpdate(client.slots, k, p'.client.slots[k]);
    forall i: nat | i < RING_SIZE ensures SlotOk(id, p', i, log') {
      var t := p'.client.slots[i];
      assert SlotOk(id, p, i, log);
      if t.valid {
        DoneAppend(log, e, t.hdr);
        var call :| Issue(t.hdr, call) in log && Matches(t, call);
        assert Issue(t.hdr, call) in log';
      }
    }
    forall x, call | Issue(x, call) in log' && x.id == id
      ensures DoneIn(log', x) || (p'.client.slots[x.RingIndex()].valid && p'.client.slots[x.RingIndex()].hdr == x)
    {
      DoneAppend(log, e, x);
      assert Issue(x, call) in log;
    }
    forall n: nat | n < p'.count
      ensures p'.client.slots[Slot(p.start, n)].hdr.RingIndex() == Slot(p.start, n)
    {
      assert p.client.slots[Slot(p.start, n)].hdr.RingIndex() == Slot(p.start, n);
    }
  }

  /** Ending the request of a valid slot, when what it reports is true. */
  lemma EndKeeps(kv: Store, w: World, c: ClientId, client: Client, k: nat, ret: Ret)
    requires Inv(kv, w) && c in w.parties
    requires client.cur == w.parties[c].client.cur && client.slots == w.parties[c].client.slots
    requires k < RING_SIZE && client.slots[k].valid
    requires exists call :: Issue(client.slots[k].hdr, call) in w.log && Truthful(w.log, CompletionOf(client, k, ret), call)
    ensures Inv(kv, WithClient(w, c, Invalidated(client, k), [CompletionOf(client, k, ret)]))
  {
    EndJustified(kv, w, c, client, k, ret);
    hide IssuesOk, Legal, NetworkOk, PartyOk, Justified, Truthful;
    var d := CompletionOf(client, k, ret);
    var w' := WithClient(w, c, Invalidated(client, k), [d]);
    LegalAppend(kv, w.log, Done(d));
    NetworkFrame(w, w', Done(d));
    IssuesFrame(w, w', Done(d));
    forall id | id in w'.parties ensures PartyOk(id, w'.parties[id], w'.log) {
      if id == c { EndParty(c, w.parties[c], client, k, ret, w.log); }
      else { PartyFrame(id, w.parties[id], w.log, Done(d)); }
    }
  }

  lemma EndJustified(kv: Store, w: World, c: ClientId, client: Client, k: nat, ret: Ret)
    requires Inv(kv, w) && c in w.parties && client.slots == w.parties[c].client.slots
    requires k < RING_SIZE && client.slots[k].valid
    requires exists call :: Issue(client.slots[k].hdr, call) in w.log && Truthful(w.log, CompletionOf(client, k, ret), call)
    ensures client.slots[k].hdr.id == c
    ensures Justified(kv, w.log, Done(CompletionOf(client, k, ret)))
  {
    assert PartyOk(c, w.parties[c], w.log);
    assert SlotOk(c, w.parties[c], k, w.log);
    hide Legal, IssuesOk, NetworkOk, PartyOk, Truthful;
  }

  /** A failed decryption or a timeout says nothing about the store. */
  lemma NothingClaimed(c: ClientId, p: Party, client: Client, k: nat, ret: Ret, log: seq<Event>)
    requires k < RING_SIZE && SlotOk(c, p, k, log) && p.client.slots[k].valid && client.slots == p.client.slots
    requires ret in {TIMEOUT, INVALID_RESPONSE}
    ensures exists call :: Issue(client.slots[k].hdr, call) in log && Truthful(log, CompletionOf(client, k, ret), call)
  {
    var call :| Issue(client.slots[k].hdr, call) in log && Matches(client.slots[k], call);
    assert Truthful(log, CompletionOf(client, k, ret), call);
  }

  lemma TimeoutKeeps(kv: Store, w: World, c: ClientId, i: nat)
    requires Inv(kv, w) && Enabled(w, TimeoutStep(c, i))
    ensures Inv(kv, Next(w, TimeoutStep(c, i)))
  {
    var p := w.parties[c];
    assert SlotOk(c, p, i, w.log);
    NothingClaimed(c, p, p.client, i, TIMEOUT, w.log);
    EndKeeps(kv, w, c, p.client, i, TIMEOUT);
  }

  // ---- handling a response -----------------------------------------------------------------

  /** For every number a message may carry: one that passes the check ends the request of the
      slot it came with, if that is pending, and no other; one that fails ends none. */
  lemma ResponseMatching(c: Client, i: nat, m: Message)
    requires i < RING_SIZE && c.slots[i].hdr.RingIndex() == i
    ensures var e := Continue(c, i, Genuine(m));
            && e.client.cur == c.cur
            && (m.hdr.SameBase(c.slots[i].hdr.Next()) ==>
                  && m.hdr.Prev().RingIndex() == i
                  && e.client.slots == c.slots[i := c.slots[i].(valid := false)]
                  && (e.done.Some? <==> c.slots[i].valid)
                  && (e.done.Some? ==> e.done.value.hdr == c.slots[i].hdr))
            && (!m.hdr.SameBase(c.slots[i].hdr.Next()) ==> e.client.slots == c.slots && e.done == None)
  {
    var x := c.slots[i].hdr;
    assert x.Next().Prev() == x;
    assert m.hdr.SameBase(x.Next()) ==> m.hdr.Prev().num == x.Next().Prev().num;
  }

  lemma OneIssue(w: World, x: SeqOp, c: Call, y: SeqOp, d: Call)
    requires IssuesOk(w) && Issue(x, c) in w.log && Issue(y, d) in w.log && x.SameBase(y)
    ensures x == y && c == d
  {
  }

  /** A message that passes the check answers the very request in the slot: it is no reflected
      request nor the reply to a reply, and the number of a reply leads back to one issue. */
  lemma AnswersSlot(w: World, c: ClientId, i: nat, m: Message) returns (call: Call, out: Outcome)
    requires IssuesOk(w) && NetworkOk(w) && c in w.parties && i < RING_SIZE && m in w.sent
    requires SlotOk(c, w.parties[c], i, w.log) && w.parties[c].client.slots[i].valid
    requires m.hdr.SameBase(w.parties[c].client.slots[i].hdr.Next())
    ensures var t := w.parties[c].client.slots[i];
            && Issue(t.hdr, call) in w.log && Matches(t, call) && m == ReplyTo(t.hdr, out)
            && if t.hdr.op == RDMA_ERR then out == Failed else Exec(Message(t.hdr, call.key, call.value), out) in w.log
  {
    var p := w.parties[c];
    var t := p.client.slots[i];
    call :| Issue(t.hdr, call) in w.log && Matches(t, call);
    ResponseOffGrid(p.start, t.hdr.num);
    OffGridIsReply(w, m);
    hide IssuesOk, OnGrid;
    var q: Message, o :| m == ReplyTo(q.hdr, o) && IssuedAs(w.log, q)
                         && if q.hdr.op == RDMA_ERR then o == Failed else Exec(q, o) in w.log;
    var asked :| Issue(q.hdr, asked) in w.log && q.key == asked.key && q.value == asked.value;
    assert q.hdr.Next().Prev() == q.hdr && t.hdr.Next().Prev() == t.hdr;
    OneIssue(w, q.hdr, asked, t.hdr, call);
    out := o;
  }

  /** What the continuation then reports is true. */
  lemma ReplyIsTruthful(w: World, c: ClientId, i: nat, m: Message)
    requires IssuesOk(w) && NetworkOk(w) && c in w.parties && i < RING_SIZE && m in w.sent
    requires SlotOk(c, w.parties[c], i, w.log) && w.parties[c].client.slots[i].valid
    requires m.hdr.SameBase(w.parties[c].client.slots[i].hdr.Next())
    ensures var client := w.parties[c].client;
            var t := client.slots[i];
            var c1 := WriteValue(client, t.value, m.value);
            var c2, ret := if m.hdr.op != t.hdr.op then c1 else WriteLen(c1, t.len, |m.value|),
                           if m.hdr.op != t.hdr.op then OP_FAILED else OP_SUCCESS;
            exists call :: Issue(t.hdr, call) in w.log && Truthful(w.log, CompletionOf(c2, i, ret), call)
  {
    var client := w.parties[c].client;
    var t := client.slots[i];
    var call, out := AnswersSlot(w, c, i, m);
    var c1 := WriteValue(client, t.value, m.value);
    if m.hdr.op != t.hdr.op {
      assert Truthful(w.log, CompletionOf(c1, i, OP_FAILED), call);
    } else {
      var d := CompletionOf(WriteLen(c1, t.len, |m.value|), i, OP_SUCCESS);
      if call.op != RDMA_ERR {
        assert Exec(Message(d.hdr, call.key, call.value), Ok(out.value)) in w.log;
        assert call.op == RDMA_GET ==> Delivered(d, call, out.value);
      }
      assert Truthful(w.log, d, call);
    }
  }

  lemma GarbageKeeps(kv: Store, w: World, c: ClientId, client: Client, number: SeqOp)
    requires Inv(kv, w) && c in w.parties
    requires client.cur == w.parties[c].client.cur && client.slots == w.parties[c].client.slots
    ensures var e := Arrived(client, INVALID_RESPONSE, number);
            Inv(kv, WithClient(w, c, e.client, if e.done.Some? then [e.done.value] else []))
  {
    var k := number.Prev().RingIndex();
    if client.slots[k].valid {
      assert SlotOk(c, w.parties[c], k, w.log);
      NothingClaimed(c, w.parties[c], client, k, INVALID_RESPONSE, w.log);
      EndKeeps(kv, w, c, client, k, INVALID_RESPONSE);
    } else {
      QuietKeeps(kv, w, c, client);
    }
  }

  lemma GenuineKeeps(kv: Store, w: World, c: ClientId, i: nat, m: Message)
    requires Inv(kv, w) && c in w.parties && i < RING_SIZE && m in w.sent
    requires w.parties[c].client.slots[i].hdr.RingIndex() == i
    ensures var e := Continue(w.parties[c].client, i, Genuine(m));
            Inv(kv, WithClient(w, c, e.client, if e.done.Some? then [e.done.value] else []))
  {
    var client := w.parties[c].client;
    var t := client.slots[i];
    ResponseMatching(client, i, m);
    var c1 := WriteValue(client, t.value, m.value);
    if m.hdr.SameBase(t.hdr.Next()) && t.valid {
      assert SlotOk(c, w.parties[c], i, w.log);
      ReplyIsTruthful(w, c, i, m);
      if m.hdr.op != t.hdr.op {
        EndKeeps(kv, w, c, c1, i, OP_FAILED);
      } else {
        EndKeeps(kv, w, c, WriteLen(c1, t.len, |m.value|), i, OP_SUCCESS);
      }
    } else {
      QuietKeeps(kv, w, c, Continue(client, i, Genuine(m)).client);
    }
  }

  lemma RespondKeeps(kv: Store, w: World, c: ClientId, n: nat, a: Arrival)
    requires Inv(kv, w) && Enabled(w, RespondStep(c, n, a))
    ensures Inv(kv, Next(w, RespondStep(c, n, a)))
  {
    var p := w.parties[c];
    var i := Slot(p.start, n);
    assert PartyOk(c, p, w.log);
    assert p.client.slots[i].hdr.RingIndex() == i;
    hide Inv;
    if a.Garbage? {
      GarbageKeeps(kv, w, c, WriteValue(p.client, p.client.slots[i].value, a.bytes), a.number);
    } else {
      GenuineKeeps(kv, w, c, i, a.m);
    }
  }

  // ---- every run ---------------------------------------------------------------------------

  lemma StepKeeps(kv: Store, w: World, s: Step)
    requires Inv(kv, w) && Enabled(w, s)
    ensures Inv(kv, Next(w, s))
  {
    hide Inv, Next, Enabled;
    match s
    case IssueStep(c, call) => IssueKeeps(kv, w, c, call);
    case FailStep(c, call) => FailKeeps(kv, w, c, call);
    case ServeStep(t, m, env) => ServeKeeps(kv, w, t, m, env);
    case RespondStep(c, n, a) => RespondKeeps(kv, w, c, n, a);
    case TimeoutStep(c, i) => TimeoutKeeps(kv, w, c, i);
  }

  lemma InitialInv(w: World)
    requires Initial(w)
    ensures Inv(w.kv, w)
  {
    forall c | c in w.parties ensures PartyOk(c, w.parties[c], w.log) {
      var p := w.parties[c];
      assert ValidSlots(p.client.slots) == {};
      assert Numbered(p.start, 0) == p.start;
    }
  }

  lemma {:induction false} RunKeeps(kv: Store, w0: World, steps: seq<Step>, w: World)
    requires Inv(kv, w0) && Run(w0, steps, w)
    ensures Inv(kv, w)
    decreases |steps|
  {
    if steps != [] {
      StepKeeps(kv, w0, steps[0]);
      RunKeeps(kv, Next(w0, steps[0]), steps[1..], w);
    }
  }

  lemma {:induction false} RunSnoc(w0: World, steps: seq<Step>, w: World, s: Step)
    requires Run(w0, steps, w) && Enabled(w, s)
    ensures Run(w0, steps + [s], Next(w, s))
    decreases |steps|
  {
    hide Possible, Admissible, Next;
    var all := steps + [s];
    if steps == [] {
      assert all[1..] == [];
    } else {
      assert all[0] == steps[0] && all[1..] == steps[1..] + [s];
      RunSnoc(Next(w0, steps[0]), steps[1..], w, s);
    }
  }
}

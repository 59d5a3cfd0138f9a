/** A well-behaved link is a case of the general protocol: its runs are runs of one client and
    one thread in which every message is delivered once. So the end-to-end results hold of it. */
module LinkRuns {
  import opened SeqOps
  import opened Messages
  import opened Server
  import opened Clients
  import opened Histories
  import opened Protocol
  import opened ProtocolProofs
  import L = Links

  ghost predicate StateMirrors(l: L.Link, w: World) {
    && w.parties == map[l.id := Party(l.client, l.start, |l.issued|)]
    && w.threads == map[l.id := l.thread]
    && w.kv == l.kv
  }

  /** Messages known to the link were sent; what is executed is not in flight as a request. */
  ghost predicate MessagesMirror(l: L.Link, w: World) {
    && (forall n | 0 <= n < |l.issued| :: l.issued[n] in w.sent && IssuedAs(w.log, l.issued[n]))
    && (forall n | n in l.responses :: l.responses[n] in w.sent)
    && (forall n | n in l.requests :: n < |l.issued|)
    && (forall m, out | Exec(m, out) in w.log ::
          exists n :: 0 <= n < |l.issued| && n !in l.requests && m.hdr == l.issued[n].hdr)
  }

  ghost predicate DoneMirror(l: L.Link, w: World) { forall d :: d in l.done <==> Done(d) in w.log }

  /** The link and the world are in the same state. */
  ghost predicate Mirrors(l: L.Link, w: World) {
    StateMirrors(l, w) && MessagesMirror(l, w) && DoneMirror(l, w)
  }

  /** The protocol's step for a step of the link. */
  function StepOf(l: L.Link, s: L.LinkStep): Step
    requires L.Enabled(l, s)
  {
    match s
    case Send(call) => IssueStep(l.id, call)
    case Serve(n, env) => ServeStep(l.id, l.issued[n], env)
    case Respond(n) => RespondStep(l.id, n, Genuine(l.responses[n]))
  }

  lemma NotExecuted(l: L.Link, w: World, n: nat)
    requires L.NumbersOk(l) && MessagesMirror(l, w) && n in l.requests
    ensures n < |l.issued| && Asked(w.log, l.issued[n])
  {
    assert forall k | 0 <= k < |l.issued| && k != n :: l.issued[k].hdr.num != l.issued[n].hdr.num;
  }

  // ---- messages ----------------------------------------------------------------------------

  lemma SendMessages(l: L.Link, l': L.Link, w: World, w': World, m: Message, call: Call)
    requires MessagesMirror(l, w) && m.key == call.key && m.value == call.value
    requires l'.issued == l.issued + [m] && l'.requests == l.requests + {|l.issued|} && l'.responses == l.responses
    requires w'.sent == w.sent + {m} && w'.log == w.log + [Issue(m.hdr, call)]
    ensures MessagesMirror(l', w')
  {
    var e := Issue(m.hdr, call);
    assert e in w'.log && IssuedAs(w'.log, m);
    forall n | 0 <= n < |l'.issued| ensures IssuedAs(w'.log, l'.issued[n]) {
      if n < |l.issued| { IssuedGrows(w.log, e, l.issued[n]); }
    }
    forall q, out | Exec(q, out) in w'.log
      ensures exists n :: 0 <= n < |l'.issued| && n !in l'.requests && q.hdr == l'.issued[n].hdr
    {
      assert Exec(q, out) in w.log;
      var n :| 0 <= n < |l.issued| && n !in l.requests && q.hdr == l.issued[n].hdr;
      assert n !in l'.requests && q.hdr == l'.issued[n].hdr;
    }
  }

  lemma ServeMessages(l: L.Link, l': L.Link, w: World, w': World, n: nat, out: Outcome, r: Message)
    requires MessagesMirror(l, w) && n in l.requests
    requires l'.issued == l.issued && l'.requests == l.requests - {n} && l'.responses == l.responses[n := r]
    requires w'.sent == w.sent + {r} && n < |l.issued| && w'.log == w.log + [Exec(l.issued[n], out)]
    ensures MessagesMirror(l', w')
  {
    var e := Exec(l.issued[n], out);
    forall k | 0 <= k < |l'.issued| ensures IssuedAs(w'.log, l'.issued[k]) {
      IssuedGrows(w.log, e, l.issued[k]);
    }
    forall q, o | Exec(q, o) in w'.log
      ensures exists k :: 0 <= k < |l'.issued| && k !in l'.requests && q.hdr == l'.issued[k].hdr
    {
      if Exec(q, o) in w.log {
        var k :| 0 <= k < |l.issued| && k !in l.requests && q.hdr == l.issued[k].hdr;
        assert k !in l'.requests && q.hdr == l'.issued[k].hdr;
      } else {
        assert n !in l'.requests && q.hdr == l'.issued[n].hdr;
      }
    }
  }

  lemma RespondMessages(l: L.Link, l': L.Link, w: World, w': World, n: nat, d: Completion)
    requires MessagesMirror(l, w)
    requires l'.issued == l.issued && l'.requests == l.requests && l'.responses == l.responses - {n}
    requires w'.sent == w.sent && w'.log == w.log + [Done(d)]
    ensures MessagesMirror(l', w')
  {
    forall k | 0 <= k < |l'.issued| ensures IssuedAs(w'.log, l'.issued[k]) {
      IssuedGrows(w.log, Done(d), l.issued[k]);
    }
  }

  // ---- steps -------------------------------------------------------------------------------

  lemma DoneSame(l: L.Link, l': L.Link, w: World, w': World, e: Event)
    requires DoneMirror(l, w) && l'.done == l.done && w'.log == w.log + [e] && !e.Done?
    ensures DoneMirror(l', w')
  {
  }

  lemma DoneMore(l: L.Link, l': L.Link, w: World, w': World, d: Completion)
    requires DoneMirror(l, w) && l'.done == l.done + [d] && w'.log == w.log + [Done(d)]
    ensures DoneMirror(l', w')
  {
  }

  lemma SendState(l: L.Link, w: World, call: Call)
    requires StateMirrors(l, w) && L.Enabled(l, L.Send(call)) && |l.issued| + 1 < MAX_REQUESTS
    ensures Enabled(w, IssueStep(l.id, call))
    ensures var l', w', m := L.Next(l, L.Send(call)), Next(w, IssueStep(l.id, call)), RequestOf(l.client, call);
            && StateMirrors(l', w') && m.key == call.key && m.value == call.value
            && l'.issued == l.issued + [m] && l'.requests == l.requests + {|l.issued|} && l'.responses == l.responses
            && l'.done == l.done && w'.sent == w.sent + {m} && w'.log == w.log + [Issue(m.hdr, call)]
  {
    hide Sent, QueueFull;
  }

  lemma SendMirrors(l: L.Link, w: World, call: Call)
    requires Mirrors(l, w) && L.Enabled(l, L.Send(call)) && |l.issued| + 1 < MAX_REQUESTS
    ensures Enabled(w, StepOf(l, L.Send(call)))
    ensures Mirrors(L.Next(l, L.Send(call)), Next(w, StepOf(l, L.Send(call))))
  {
    SendState(l, w, call);
    hide StateMirrors, MessagesMirror, DoneMirror, L.Enabled, L.Next, Enabled, Possible, Next, RequestOf;
    var l', w', m := L.Next(l, L.Send(call)), Next(w, IssueStep(l.id, call)), RequestOf(l.client, call);
    SendMessages(l, l', w, w', m, call);
    DoneSame(l, l', w, w', Issue(m.hdr, call));
  }

  lemma ServeState(l: L.Link, w: World, n: nat, env: Surroundings) returns (out: Outcome, r: Message)
    requires L.NumbersOk(l) && L.FlightOk(l) && Mirrors(l, w) && L.Enabled(l, L.Serve(n, env))
    ensures n < |l.issued| && n in l.requests && Enabled(w, ServeStep(l.id, l.issued[n], env))
    ensures var l', w' := L.Next(l, L.Serve(n, env)), Next(w, ServeStep(l.id, l.issued[n], env));
            && StateMirrors(l', w')
            && l'.issued == l.issued && l'.requests == l.requests - {n} && l'.responses == l.responses[n := r]
            && l'.done == l.done && w'.sent == w.sent + {r} && w'.log == w.log + [Exec(l.issued[n], out)]
  {
    L.Accepted(l, n, env);
    NotExecuted(l, w, n);
    hide L.NumbersOk, L.FlightOk, L.Timely, Handle, Asked, Sendable, KvCall, DoneMirror;
    var h := Handle(l.id, l.thread, l.kv, l.issued[n], env);
    out, r := h.executed.value, h.reply.value;
  }

  lemma ServeMirrors(l: L.Link, w: World, n: nat, env: Surroundings)
    requires L.Inv(l) && Mirrors(l, w) && L.Enabled(l, L.Serve(n, env))
    ensures Enabled(w, StepOf(l, L.Serve(n, env)))
    ensures Mirrors(L.Next(l, L.Serve(n, env)), Next(w, StepOf(l, L.Serve(n, env))))
  {
    var out, r := ServeState(l, w, n, env);
    hide L.Inv, StateMirrors, MessagesMirror, DoneMirror, L.Enabled, L.Next, Enabled, Possible, Next;
    var l', w' := L.Next(l, L.Serve(n, env)), Next(w, ServeStep(l.id, l.issued[n], env));
    ServeMessages(l, l', w, w', n, out, r);
    DoneSame(l, l', w, w', Exec(l.issued[n], out));
  }

  lemma Completes(l: L.Link, n: nat)
    requires L.NumbersOk(l) && L.FlightOk(l) && L.SlotsOk(l) && n in l.responses
    ensures n < |l.issued| && Continue(l.client, Slot(l.start, n), Genuine(l.responses[n])).done.Some?
  {
    L.SlotOfNumber(l, n);
    assert L.InFlight(l, n);
    hide Numbered, Slot, Ordinal, L.NumbersOk, Continue, SeqOp.RingIndex;
    L.MatchedEnds(l.client, Slot(l.start, n), l.responses[n]);
  }

  lemma RespondState(l: L.Link, w: World, n: nat) returns (d: Completion)
    requires StateMirrors(l, w) && n in l.responses && n < |l.issued| && l.responses[n] in w.sent
    requires Continue(l.client, Slot(l.start, n), Genuine(l.responses[n])).done.Some?
    ensures Enabled(w, RespondStep(l.id, n, Genuine(l.responses[n])))
    ensures var l', w' := L.Next(l, L.Respond(n)), Next(w, RespondStep(l.id, n, Genuine(l.responses[n])));
            && StateMirrors(l', w')
            && l'.issued == l.issued && l'.requests == l.requests && l'.responses == l.responses - {n}
            && l'.done == l.done + [d] && w'.sent == w.sent && w'.log == w.log + [Done(d)]
  {
    hide Continue;
    d := Continue(l.client, Slot(l.start, n), Genuine(l.responses[n])).done.value;
  }

  lemma RespondMirrors(l: L.Link, w: World, n: nat)
    requires L.Inv(l) && Mirrors(l, w) && L.Enabled(l, L.Respond(n))
    ensures Enabled(w, StepOf(l, L.Respond(n)))
    ensures Mirrors(L.Next(l, L.Respond(n)), Next(w, StepOf(l, L.Respond(n))))
  {
    Completes(l, n);
    var d := RespondState(l, w, n);
    hide L.Inv, StateMirrors, MessagesMirror, DoneMirror, L.Enabled, L.Next, Enabled, Possible, Next;
    var l', w' := L.Next(l, L.Respond(n)), Next(w, RespondStep(l.id, n, Genuine(l.responses[n])));
    RespondMessages(l, l', w, w', n, d);
    DoneMore(l, l', w, w', d);
  }

  // ---- runs --------------------------------------------------------------------------------

  lemma {:induction false} RunMirrors(l: L.Link, steps: seq<L.LinkStep>, l': L.Link, w: World) returns (all: seq<Step>, w': World)
    requires L.Inv(l) && Mirrors(l, w) && L.Run(l, steps, l') && |l'.issued| < MAX_REQUESTS
    ensures |all| == |steps| && Run(w, all, w') && Mirrors(l', w')
    decreases |steps|
  {
    if steps == [] {
      all, w' := [], w;
    } else {
      var s := steps[0];
      var next := L.Next(l, s);
      IssuedStays(next, steps[1..], l');
      match s {
        case Send(call) => SendMirrors(l, w, call); L.SendKeeps(l, call);
        case Serve(n, env) => ServeMirrors(l, w, n, env); L.ServeKeeps(l, n, env);
        case Respond(n) => RespondMirrors(l, w, n); L.RespondKeeps(l, n);
      }
      hide Mirrors, L.Inv, L.Enabled, L.Next, Next, StepOf;
      var rest;
      rest, w' := RunMirrors(next, steps[1..], l', Next(w, StepOf(l, s)));
      all := [StepOf(l, s)] + rest;
      assert all[1..] == rest;
    }
  }

  lemma {:induction false} IssuedStays(l: L.Link, steps: seq<L.LinkStep>, l': L.Link)
    requires L.Run(l, steps, l')
    ensures |l.issued| <= |l'.issued|
    decreases |steps|
  {
    if steps != [] { IssuedStays(L.Next(l, steps[0]), steps[1..], l'); }
  }

  /** Every run of a fresh link is a run of the protocol from an initial state, step by step, to
      the same client, thread, store and completions. */
  lemma LinkIsProtocol(l0: L.Link, steps: seq<L.LinkStep>, l: L.Link) returns (w0: World, all: seq<Step>, w: World)
    requires L.Fresh(l0) && L.Run(l0, steps, l) && |l.issued| < MAX_REQUESTS
    ensures Initial(w0) && w0.kv == l0.kv && |all| == |steps| && Run(w0, all, w) && Mirrors(l, w)
  {
    w0 := World(map[l0.id := Party(l0.client, l0.start, 0)], map[l0.id := l0.thread], l0.kv, {}, []);
    L.FreshInv(l0);
    assert Mirrors(l0, w0);
    all, w := RunMirrors(l0, steps, l, w0);
  }

  // ---- the wait for a slot -----------------------------------------------------------------

  lemma {:induction false} LoopFront(e: Effects, b: Batch, rest: seq<Batch>)
    ensures RunLoop(e, [b] + rest) == RunLoop(RunOnce(e, b), rest)
    decreases |rest|
  {
    hide RunOnce;
    if rest == [] {
      assert [b] + rest == [b] && [b][..0] == [];
    } else {
      var all := [b] + rest;
      assert all[..|all| - 1] == [b] + rest[..|rest| - 1] && all[|all| - 1] == rest[|rest| - 1];
      LoopFront(e, b, rest[..|rest| - 1]);
    }
  }

  /** What the client's event loop gets to see of a delivery: a response, or nothing of what the
      thread does. */
  function BatchOf(l: L.Link, s: L.LinkStep): Batch
    requires L.Enabled(l, s)
  {
    if s.Respond? then [Response(Slot(l.start, s.n), Genuine(l.responses[s.n]))] else []
  }

  lemma BatchStep(l: L.Link, s: L.LinkStep, past: seq<Completion>) returns (more: seq<Completion>)
    requires L.Enabled(l, s) && !s.Send?
    ensures RunOnce(Effects(l.client, past), BatchOf(l, s)) == Effects(L.Next(l, s).client, past + more)
    ensures L.Next(l, s).done == l.done + more
  {
    hide Continue, Handle;
    if s.Respond? {
      var f := Continue(l.client, Slot(l.start, s.n), Genuine(l.responses[s.n]));
      more := if f.done.Some? then [f.done.value] else [];
      var b := BatchOf(l, s);
      assert b[..0] == [] && RunOnce(Effects(l.client, past), []) == Effects(l.client, past);
      assert past + [] == past && l.done + [] == l.done;
    } else {
      more := [];
      assert past + [] == past && l.done + [] == l.done;
    }
  }

  /** The deliveries of a link, as event loops of the waiting client. */
  lemma {:induction false} DeliveriesAreLoop(l: L.Link, steps: seq<L.LinkStep>, l': L.Link, past: seq<Completion>)
    returns (loop: seq<Batch>, more: seq<Completion>)
    requires L.Run(l, steps, l') && forall s | s in steps :: !s.Send?
    ensures |loop| == |steps| && l'.done == l.done + more
    ensures RunLoop(Effects(l.client, past), loop) == Effects(l'.client, past + more)
    decreases |steps|
  {
    hide L.Next, L.Enabled, RunOnce, BatchOf;
    if steps == [] {
      loop, more := [], [];
      assert past + [] == past && l.done + [] == l.done;
    } else {
      var s := steps[0];
      assert s in steps;
      var first := BatchStep(l, s, past);
      hide RunLoop;
      var rest, others := DeliveriesAreLoop(L.Next(l, s), steps[1..], l', past + first);
      LoopFront(Effects(l.client, past), BatchOf(l, s), rest);
      Regrouped(past, first, others);
      Regrouped(l.done, first, others);
      loop, more := [BatchOf(l, s)] + rest, first + others;
    }
  }

  lemma Regrouped(a: seq<Completion>, b: seq<Completion>, c: seq<Completion>)
    ensures a + b + c == a + (b + c)
  {
  }

  /** The wait in `prepare_new_request` ends: the responses of enough deliveries, whichever they
      are, bring it to a free slot. */
  lemma WaitLoopEnds(l: L.Link, steps: seq<L.LinkStep>, l': L.Link, past: seq<Completion>) returns (loop: seq<Batch>)
    requires L.Inv(l) && L.Run(l, steps, l') && (forall s | s in steps :: !s.Send?) && |steps| >= L.Measure(l)
    ensures |loop| == |steps|
    ensures RunLoop(Effects(l.client, past), loop).client == l'.client && !QueueFull(l'.client)
    ensures exists used: nat | used <= |loop| :: Waited(Effects(l.client, past), loop, used) &&
                                                 !QueueFull(RunLoop(Effects(l.client, past), loop[..used]).client)
  {
    L.WaitEnds(l, steps, l');
    var more;
    loop, more := DeliveriesAreLoop(l, steps, l', past);
    assert loop[..|loop|] == loop;
    var used := FirstFree(Effects(l.client, past), loop, 0);
  }

  /** The event loop at which a wait that ends does end. */
  lemma {:induction false} FirstFree(e: Effects, loop: seq<Batch>, from: nat) returns (used: nat)
    requires from <= |loop| && Waited(e, loop, from) && !QueueFull(RunLoop(e, loop[..|loop|]).client)
    ensures used <= |loop| && Waited(e, loop, used) && !QueueFull(RunLoop(e, loop[..used]).client)
    decreases |loop| - from
  {
    hide QueueFull, RunLoop;
    if !QueueFull(RunLoop(e, loop[..from]).client) {
      used := from;
    } else {
      used := FirstFree(e, loop, from + 1);
    }
  }
}

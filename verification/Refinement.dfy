/** The client's methods run the steps of the protocol: an event loop is a sequence of
    continuations, a call is event loops followed by an issue, a drain is a sequence of
    timeouts; while a call waits, threads and other clients go on. So what holds in every run of the protocol holds for the running client. */
module Refinement {
  import opened SeqOps
  import opened Server
  import opened Clients
  import opened Histories
  import opened Protocol
  import opened ProtocolProofs

  function DoneEvents(done: seq<Completion>): seq<Event> { seq(|done|, i requires 0 <= i < |done| => Done(done[i])) }

  /** The world after client `c` went through the effects `e`. */
  function After(w: World, c: ClientId, e: Effects): World
    requires c in w.parties
  {
    w.(parties := w.parties[c := w.parties[c].(client := e.client)], log := w.log + DoneEvents(e.done))
  }

  /** The completions of one client that a history records. */
  function DonesOf(log: seq<Event>, c: ClientId): seq<Completion>
    decreases |log|
  {
    if log == [] then [] else
    var e := log[|log| - 1];
    DonesOf(log[..|log| - 1], c) + if e.Done? && e.done.hdr.id == c then [e.done] else []
  }

  lemma DonesAppend(log: seq<Event>, e: Event, c: ClientId)
    ensures DonesOf(log + [e], c) == DonesOf(log, c) + if e.Done? && e.done.hdr.id == c then [e.done] else []
  {
    assert (log + [e])[..|log|] == log;
  }

  // ---- what goes on while a client waits ---------------------------------------------------

  /** A response the transport may hand to a continuation of `c`: the slot is that of a past
      request, and what decrypts was encrypted by some party, by now. */
  ghost predicate Answerable(w: World, c: ClientId, r: Response) {
    && c in w.parties
    && (exists n :: 0 <= n < w.parties[c].count && r.slot == Slot(w.parties[c].start, n))
    && (r.arrival.Genuine? ==> r.arrival.m in w.sent)
  }

  function Answered(w: World, c: ClientId, r: Response): World
    requires c in w.parties && r.slot < RING_SIZE
  {
    var f := Continue(w.parties[c].client, r.slot, r.arrival);
    WithClient(w, c, f.client, if f.done.Some? then [f.done.value] else [])
  }

  /** A step of a server thread or of another client. */
  predicate OfOthers(s: Step, c: ClientId) { s.ServeStep? || s.c != c }

  ghost predicate AsideBy(w: World, steps: seq<Step>, c: ClientId, w': World) {
    Run(w, steps, w') && forall s | s in steps :: OfOthers(s, c)
  }

  /** The other parties go on without client `c`. */
  ghost predicate Aside(w: World, c: ClientId, w': World) { exists steps :: AsideBy(w, steps, c, w') }

  /** Client `c` handles the responses of `b` in order. Before, between and after them the threads
      and the other clients take any number of steps, so that a response may be the answer to
      what was sent meanwhile. */
  ghost predicate Interleaved(w: World, c: ClientId, b: Batch, w': World)
    decreases |b|
  {
    if b == [] then Aside(w, c, w') else
    var front, last := b[..|b| - 1], b[|b| - 1];
    exists w1 :: Interleaved(w, c, front, w1) && AnswersThen(w1, c, last, w')
  }

  ghost predicate AnswersThen(w: World, c: ClientId, r: Response, w': World) {
    r.slot < RING_SIZE && Answerable(w, c, r) && Aside(Answered(w, c, r), c, w')
  }

  /** All responses of a wait. */
  function Flat(loop: seq<Batch>): Batch
    decreases |loop|
  {
    if loop == [] then [] else Flat(loop[..|loop| - 1]) + loop[|loop| - 1]
  }

  lemma {:induction false} OnceConcat(e: Effects, a: Batch, b: Batch)
    ensures RunOnce(e, a + b) == RunOnce(RunOnce(e, a), b)
    decreases |b|
  {
    hide Continue;
    if b == [] {
      assert a + b == a;
    } else {
      assert (a + b)[..|a + b| - 1] == a + b[..|b| - 1];
      OnceConcat(e, a, b[..|b| - 1]);
    }
  }

  lemma {:induction false} LoopFlat(e: Effects, loop: seq<Batch>)
    ensures RunLoop(e, loop) == RunOnce(e, Flat(loop))
    decreases |loop|
  {
    hide RunOnce;
    if loop == [] {
      OnceNothing(e);
    } else {
      LoopFlat(e, loop[..|loop| - 1]);
      OnceConcat(e, Flat(loop[..|loop| - 1]), loop[|loop| - 1]);
    }
  }

  lemma OnceNothing(e: Effects)
    ensures RunOnce(e, []) == e
  {
  }

  // ---- single steps ------------------------------------------------------------------------

  /** What ends through a continuation is a request of this client. */
  lemma EndsOwn(kv: Store, w: World, c: ClientId, i: nat, a: Arrival)
    requires Inv(kv, w) && c in w.parties && i < RING_SIZE
    ensures var f := Continue(w.parties[c].client, i, a); f.done.Some? ==> f.done.value.hdr.id == c
  {
    forall k: nat | k < RING_SIZE && w.parties[c].client.slots[k].valid ensures w.parties[c].client.slots[k].hdr.id == c {
      SlotsOwn(kv, w, c, k);
    }
  }

  lemma AnswerIsStep(kv: Store, w: World, c: ClientId, r: Response) returns (s: Step)
    requires Inv(kv, w) && Answerable(w, c, r) && r.slot < RING_SIZE
    ensures Enabled(w, s) && Next(w, s) == Answered(w, c, r)
    ensures var f := Continue(w.parties[c].client, r.slot, r.arrival);
            DonesOf(Answered(w, c, r).log, c) == DonesOf(w.log, c) + if f.done.Some? then [f.done.value] else []
  {
    EndsOwn(kv, w, c, r.slot, r.arrival);
    hide Inv, Continue, DonesOf;
    var n :| 0 <= n < w.parties[c].count && r.slot == Slot(w.parties[c].start, n);
    s := RespondStep(c, n, r.arrival);
    var f := Continue(w.parties[c].client, r.slot, r.arrival);
    if f.done.Some? {
      DonesAppend(w.log, Done(f.done.value), c);
    } else {
      assert w.log + [] == w.log;
    }
  }

  lemma OthersLog(log: seq<Event>, log': seq<Event>, added: seq<Event>, c: ClientId)
    requires log' == log + added && |added| <= 1
    requires forall e | e in added && e.Done? :: e.done.hdr.id != c
    ensures DonesOf(log', c) == DonesOf(log, c)
  {
    if added == [] {
      assert log' == log;
    } else {
      assert added == [added[0]];
      DonesAppend(log, added[0], c);
    }
  }

  /** A step of the others leaves client `c` and its completions alone. */
  lemma OthersStep(kv: Store, w: World, s: Step, c: ClientId)
    requires Inv(kv, w) && Enabled(w, s) && OfOthers(s, c) && c in w.parties
    ensures var w' := Next(w, s);
            c in w'.parties && w'.parties[c] == w.parties[c] && DonesOf(w'.log, c) == DonesOf(w.log, c)
  {
    hide Inv, Continue, DonesOf, Handle, PartyOk, SlotOk, Admissible, Sent, Unsent, QueueFull;
    var w' := Next(w, s);
    match s
    case IssueStep(d, call) =>
      OthersLog(w.log, w'.log, [Issue(RequestOf(w.parties[d].client, call).hdr, call)], c);
    case FailStep(d, call) =>
      OthersLog(w.log, w'.log, [], c);
    case ServeStep(t, m, env) =>
      var h := Handle(t, w.threads[t], w.kv, m, env);
      OthersLog(w.log, w'.log, if h.executed.Some? then [Exec(m, h.executed.value)] else [], c);
    case RespondStep(d, n, a) =>
      EndsOwn(kv, w, d, Slot(w.parties[d].start, n), a);
      var f := Continue(w.parties[d].client, Slot(w.parties[d].start, n), a);
      OthersLog(w.log, w'.log, if f.done.Some? then [Done(f.done.value)] else [], c);
    case TimeoutStep(d, i) =>
      SlotsOwn(kv, w, d, i);
      OthersLog(w.log, w'.log, [Done(CompletionOf(w.parties[d].client, i, TIMEOUT))], c);
  }

  lemma SlotsOwn(kv: Store, w: World, c: ClientId, i: nat)
    requires Inv(kv, w) && c in w.parties && i < RING_SIZE && w.parties[c].client.slots[i].valid
    ensures w.parties[c].client.slots[i].hdr.id == c
  {
    assert PartyOk(c, w.parties[c], w.log);
    assert SlotOk(c, w.parties[c], i, w.log);
  }

  lemma {:induction false} OthersRun(kv: Store, w: World, steps: seq<Step>, c: ClientId, w': World)
    requires Inv(kv, w) && AsideBy(w, steps, c, w') && c in w.parties
    ensures Inv(kv, w') && c in w'.parties && w'.parties[c] == w.parties[c] && DonesOf(w'.log, c) == DonesOf(w.log, c)
    decreases |steps|
  {
    if steps != [] {
      assert steps[0] in steps;
      OthersStep(kv, w, steps[0], c);
      StepKeeps(kv, w, steps[0]);
      hide Inv, Possible, Admissible, Next, DonesOf, OfOthers;
      assert AsideBy(Next(w, steps[0]), steps[1..], c, w');
      OthersRun(kv, Next(w, steps[0]), steps[1..], c, w');
    }
  }

  lemma {:induction false} RunTrans(w0: World, steps: seq<Step>, w1: World, more: seq<Step>, w2: World)
    requires Run(w0, steps, w1) && Run(w1, more, w2)
    ensures Run(w0, steps + more, w2)
    decreases |steps|
  {
    hide Possible, Admissible, Next;
    if steps == [] {
      assert steps + more == more;
    } else {
      assert (steps + more)[1..] == steps[1..] + more;
      RunTrans(Next(w0, steps[0]), steps[1..], w1, more, w2);
    }
  }

  // ---- whole calls -------------------------------------------------------------------------

  /** Handling responses while the others go on is a run of the protocol. The client is where
      its own method takes it, and has recorded the same completions. */
  lemma {:induction false} InterleavedIsRun(kv: Store, w: World, c: ClientId, past: seq<Completion>, b: Batch, w': World)
    returns (steps: seq<Step>)
    requires Inv(kv, w) && c in w.parties && Interleaved(w, c, b, w')
    ensures Run(w, steps, w') && Inv(kv, w') && c in w'.parties
    ensures var e := RunOnce(Effects(w.parties[c].client, past), b);
            && w'.parties[c] == w.parties[c].(client := e.client)
            && past <= e.done && DonesOf(w'.log, c) == DonesOf(w.log, c) + e.done[|past|..]
    decreases |b|
  {
    hide Inv, Run, Answerable, Continue, DonesOf;
    if b == [] {
      steps :| AsideBy(w, steps, c, w');
      OthersRun(kv, w, steps, c, w');
      assert past[|past|..] == [];
    } else {
      var front, r := b[..|b| - 1], b[|b| - 1];
      var w1 :| Interleaved(w, c, front, w1) && AnswersThen(w1, c, r, w');
      var before := InterleavedIsRun(kv, w, c, past, front, w1);
      var s := AnswerIsStep(kv, w1, c, r);
      StepKeeps(kv, w1, s);
      var after :| AsideBy(Answered(w1, c, r), after, c, w');
      AnsweredParty(w1, c, r);
      OthersRun(kv, Answered(w1, c, r), after, c, w');
      RunSnoc(w, before, w1, s);
      RunTrans(w, before + [s], Answered(w1, c, r), after, w');
      steps := before + [s] + after;
      MoreDone(past, RunOnce(Effects(w.parties[c].client, past), front), Continue(w1.parties[c].client, r.slot, r.arrival));
    }
  }

  lemma AnsweredParty(w: World, c: ClientId, r: Response)
    requires c in w.parties && r.slot < RING_SIZE
    ensures c in Answered(w, c, r).parties
    ensures Answered(w, c, r).parties[c] == w.parties[c].(client := Continue(w.parties[c].client, r.slot, r.arrival).client)
  {
  }

  lemma MoreDone(past: seq<Completion>, e: Effects, f: Effect)
    requires past <= e.done
    ensures past <= Appended(e, f).done
    ensures Appended(e, f).done[|past|..] == e.done[|past|..] + if f.done.Some? then [f.done.value] else []
  {
  }

  /** Any number of event loops, from any reachable state and any earlier completions, as the
      client's methods speak of them, while the others go on. */
  lemma LoopIsRun(kv: Store, w: World, c: ClientId, past: seq<Completion>, loop: seq<Batch>, w': World) returns (steps: seq<Step>)
    requires Inv(kv, w) && c in w.parties && Interleaved(w, c, Flat(loop), w')
    ensures Run(w, steps, w') && Inv(kv, w') && c in w'.parties
    ensures var e := RunLoop(Effects(w.parties[c].client, past), loop);
            && w'.parties[c] == w.parties[c].(client := e.client)
            && past <= e.done && DonesOf(w'.log, c) == DonesOf(w.log, c) + e.done[|past|..]
  {
    LoopFlat(Effects(w.parties[c].client, past), loop);
    hide Inv, Run, RunLoop, RunOnce, Interleaved, DonesOf;
    steps := InterleavedIsRun(kv, w, c, past, Flat(loop), w');
  }

  lemma {:induction false} RunBack(w: World, steps: seq<Step>, w': World) returns (w1: World)
    requires Run(w, steps, w') && steps != []
    ensures var s := steps[|steps| - 1]; Run(w, steps[..|steps| - 1], w1) && Enabled(w1, s) && Next(w1, s) == w'
    decreases |steps|
  {
    hide Possible, Admissible, Next;
    var n := |steps| - 1;
    if n == 0 {
      w1 := w;
      assert Run(Next(w, steps[0]), [], w') && steps[1..] == [] && steps[..0] == [];
    } else {
      var rest := steps[1..];
      w1 := RunBack(Next(w, steps[0]), rest, w');
      assert steps[..n][1..] == rest[..n - 1] && steps[..n][0] == steps[0];
    }
  }

  lemma LongerAside(w: World, c: ClientId, w1: World, s: Step)
    requires Aside(w, c, w1) && Enabled(w1, s) && OfOthers(s, c)
    ensures Aside(w, c, Next(w1, s))
  {
    hide Run, Possible, Admissible, Next;
    var steps :| AsideBy(w, steps, c, w1);
    RunSnoc(w, steps, w1, s);
    assert AsideBy(w, steps + [s], c, Next(w1, s));
  }

  lemma OneMoreOther(w: World, c: ClientId, b: Batch, w1: World, s: Step)
    requires Interleaved(w, c, b, w1) && Enabled(w1, s) && OfOthers(s, c)
    ensures Interleaved(w, c, b, Next(w1, s))
  {
    hide Possible, Admissible, Next, Answered, Aside;
    if b == [] {
      LongerAside(w, c, w1, s);
    } else {
      var front, last := b[..|b| - 1], b[|b| - 1];
      var w2 :| Interleaved(w, c, front, w2) && AnswersThen(w2, c, last, w1);
      LongerAside(Answered(w2, c, last), c, w1, s);
      assert AnswersThen(w2, c, last, Next(w1, s));
    }
  }

  lemma OneMoreAnswer(w: World, c: ClientId, b: Batch, w1: World, n: nat, a: Arrival)
    requires Interleaved(w, c, b, w1) && Possible(w1, RespondStep(c, n, a))
    ensures var r := Response(Slot(w1.parties[c].start, n), a);
            r.slot < RING_SIZE && Interleaved(w, c, b + [r], Next(w1, RespondStep(c, n, a)))
  {
    hide Interleaved, Run, Continue, Slot;
    var r, w' := Response(Slot(w1.parties[c].start, n), a), Next(w1, RespondStep(c, n, a));
    assert Slot(w1.parties[c].start, n) < RING_SIZE by { SlotInRing(w1.parties[c].start, n); }
    assert Answered(w1, c, r) == w';
    Standstill(w', c);
    assert AnswersThen(w1, c, r, w');
    MoreInterleaved(w, c, b, w1, r, w');
  }

  lemma SlotInRing(start: SeqNumber, n: nat)
    ensures Slot(start, n) < RING_SIZE
  {
  }

  lemma Standstill(w: World, c: ClientId)
    ensures Aside(w, c, w)
  {
    assert AsideBy(w, [], c, w);
  }

  lemma MoreInterleaved(w: World, c: ClientId, b: Batch, w1: World, r: Response, w': World)
    requires Interleaved(w, c, b, w1) && AnswersThen(w1, c, r, w')
    ensures Interleaved(w, c, b + [r], w')
  {
    hide AnswersThen;
    assert (b + [r])[..|b|] == b;
  }

  /** And conversely: every run in which client `c` only handles responses is such a wait, for some
      responses. */
  lemma {:induction false} RunIsInterleaved(w: World, c: ClientId, steps: seq<Step>, w': World) returns (b: Batch)
    requires Run(w, steps, w') && forall s | s in steps :: OfOthers(s, c) || s.RespondStep?
    ensures Interleaved(w, c, b, w')
    decreases |steps|
  {
    if steps == [] {
      b := [];
      Standstill(w, c);
    } else {
      hide Run, Admissible, Next, Interleaved;
      var front, s := steps[..|steps| - 1], steps[|steps| - 1];
      assert s in steps && forall t | t in front :: t in steps;
      var w1 := RunBack(w, steps, w');
      b := RunIsInterleaved(w, c, front, w1);
      if OfOthers(s, c) {
        OneMoreOther(w, c, b, w1, s);
      } else {
        OneMoreAnswer(w, c, b, w1, s.n, s.a);
        b := b + [Response(Slot(w1.parties[c].start, s.n), s.a)];
      }
    }
  }

  /** A call that found a slot, as a run: the wait, with whatever the others do meanwhile, then the
      issue, or its undoing when encryption failed. */
  lemma RequestIsRun(kv: Store, w: World, c: ClientId, past: seq<Completion>, call: Call, loop: seq<Batch>, encryptFails: bool, w1: World)
    returns (steps: seq<Step>)
    requires Inv(kv, w) && c in w.parties && Interleaved(w, c, Flat(loop), w1)
    requires call.Valid() && w.parties[c].count + 1 < MAX_REQUESTS
    requires !QueueFull(RunLoop(Effects(w.parties[c].client, past), loop).client)
    ensures var e, s := RunLoop(Effects(w.parties[c].client, past), loop),
                        if encryptFails then FailStep(c, call) else IssueStep(c, call);
            && Enabled(w1, s) && Run(w, steps, Next(w1, s)) && c in Next(w1, s).parties
            && Next(w1, s).parties[c].client == (if encryptFails then Unsent(e.client, call) else Sent(e.client, call))
            && (!encryptFails ==> RequestOf(e.client, call) in Next(w1, s).sent)
            && past <= e.done && DonesOf(Next(w1, s).log, c) == DonesOf(w.log, c) + e.done[|past|..]
  {
    hide Run, RunLoop, Inv, Interleaved, DonesOf, QueueFull, Sent, Unsent;
    var before := LoopIsRun(kv, w, c, past, loop, w1);
    var s := if encryptFails then FailStep(c, call) else IssueStep(c, call);
    RunSnoc(w, before, w1, s);
    steps := before + [s];
    assert w1.log + [] == w1.log;
    DonesAppend(w1.log, Issue(RequestOf(w1.parties[c].client, call).hdr, call), c);
  }

  /** Draining any number of slots is a run of timeouts. */
  lemma {:induction false} DrainIsRun(w: World, c: ClientId, e: Effects, i: nat, count: nat) returns (steps: seq<Step>)
    requires c in w.parties && i < RING_SIZE
    ensures Run(After(w, c, e), steps, After(w, c, Drained(e, i, count)))
    decreases count
  {
    if count == 0 {
      steps := [];
    } else if e.client.slots[i].valid {
      var d := CompletionOf(e.client, i, TIMEOUT);
      var e' := Effects(Invalidated(e.client, i), e.done + [d]);
      var s := TimeoutStep(c, i);
      assert DoneEvents(e'.done) == DoneEvents(e.done) + [Done(d)];
      assert w.log + DoneEvents(e.done) + [Done(d)] == w.log + DoneEvents(e'.done);
      assert Next(After(w, c, e), s) == After(w, c, e');
      var rest := DrainIsRun(w, c, e', (i + 1) % RING_SIZE, count - 1);
      steps := [s] + rest;
      assert steps[1..] == rest;
    } else {
      steps := DrainIsRun(w, c, e, (i + 1) % RING_SIZE, count - 1);
    }
  }
}

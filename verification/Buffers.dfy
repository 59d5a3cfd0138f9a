/** The caller's buffers over whole runs: what a get delivered stays where it is until a response
    comes for a slot that points to the same buffer. */
module Buffers {
  import opened Messages
  import opened SeqOps
  import opened Clients
  import opened Histories
  import opened Protocol
  import opened ProtocolTheorems
  import opened Replays

  /** A response for a slot of client `c` that points to buffer `b`. */
  predicate Touches(w: World, s: Step, c: ClientId, b: nat)
    requires Possible(w, s)
  {
    s.RespondStep? && s.c == c && w.parties[c].client.slots[Slot(w.parties[c].start, s.n)].value == Some(b)
  }

  ghost predicate Untouched(w: World, steps: seq<Step>, c: ClientId, b: nat)
    decreases |steps|
  {
    steps == [] || (Possible(w, steps[0]) && !Touches(w, steps[0], c, b) && Untouched(Next(w, steps[0]), steps[1..], c, b))
  }

  /** Sending, failing to send, draining, other responses, and whatever threads and other clients
      do, leave the buffer alone. */
  lemma StepLeaves(w: World, s: Step, c: ClientId, b: nat)
    requires Possible(w, s) && c in w.parties && !Touches(w, s, c, b)
    ensures c in Next(w, s).parties
    ensures SameBuffer(w.parties[c].client, Next(w, s).parties[c].client, b)
  {
    match s
    case IssueStep(d, call) => CallLeaves(w.parties[d].client, call, true);
    case FailStep(d, call) => CallLeaves(w.parties[d].client, call, false);
    case RespondStep(d, n, a) =>
      ContinueBuffers(w.parties[d].client, Slot(w.parties[d].start, n), a, b);
      hide Continue, Slot;
    case ServeStep(t, m, env) => hide Server.Handle;
    case TimeoutStep(d, i) =>
  }

  lemma {:induction false} BufferStays(w: World, steps: seq<Step>, w': World, c: ClientId, b: nat)
    requires PossibleRun(w, steps, w') && c in w.parties && Untouched(w, steps, c, b)
    ensures c in w'.parties && SameBuffer(w.parties[c].client, w'.parties[c].client, b)
    decreases |steps|
  {
    if steps != [] {
      StepLeaves(w, steps[0], c, b);
      hide Possible, Next, Touches;
      BufferStays(Next(w, steps[0]), steps[1..], w', c, b);
    }
  }

  /** What a callback saw in the buffer of its request is there for as long as no response comes
      for a slot that points to it. */
  lemma DeliveryStays(w0: World, w: World, c: ClientId, n: nat, a: Arrival, b: nat, steps: seq<Step>, w': World)
    requires Reachable(w0, w) && Possible(w, RespondStep(c, n, a))
    requires var i := Slot(w.parties[c].start, n);
             var f := Continue(w.parties[c].client, i, a);
             f.done.Some? && f.done.value.ret == OP_SUCCESS && w.parties[c].client.slots[i].value == Some(b)
    requires PossibleRun(Next(w, RespondStep(c, n, a)), steps, w') && Untouched(Next(w, RespondStep(c, n, a)), steps, c, b)
    ensures c in w'.parties
    ensures var f := Continue(w.parties[c].client, Slot(w.parties[c].start, n), a);
            a.Genuine? && f.done.value.seen == Some(Read(w'.parties[c].client.mem, b)) && a.m.value <= Read(w'.parties[c].client.mem, b)
  {
    var i := Slot(w.parties[c].start, n);
    PartyInv(w0, w, c);
    assert w.parties[c].client.slots[i].hdr.RingIndex() == i;
    SuccessShows(w.parties[c].client, i, a, b);
    var w1 := Next(w, RespondStep(c, n, a));
    assert w1.parties[c].client == Continue(w.parties[c].client, i, a).client;
    hide Possible, Next, Continue, Slot, PossibleRun, Untouched, Reachable, PartyOk;
    BufferStays(w1, steps, w', c, b);
  }

  lemma SuccessShows(c: Client, i: nat, a: Arrival, b: nat)
    requires i < RING_SIZE && c.slots[i].value == Some(b) && c.slots[i].hdr.RingIndex() == i
    requires Continue(c, i, a).done.Some? && Continue(c, i, a).done.value.ret == OP_SUCCESS
    ensures var e := Continue(c, i, a);
            a.Genuine? && e.done.value.seen == Some(Read(e.client.mem, b)) && a.m.value <= Read(e.client.mem, b)
  {
    assert c.slots[i].hdr.Next().Prev() == c.slots[i].hdr;
  }
}

/** What clients and server observably did, in order, and which such histories an atomic
    key-value store allows. Nothing here mentions rings, windows or messages in flight. */
module Histories {
  import opened SeqOps
  import opened Messages
  import opened Server
  import opened Clients

  /** A request handed to the transport, an execution at the store, and the end of a request. */
  datatype Event = Issue(x: SeqOp, call: Call) | Exec(m: Message, out: Outcome) | Done(done: Completion)

  /** The store after the executions of a history. */
  ghost function Replay(kv: Store, log: seq<Event>): Store
    decreases |log|
  {
    if log == [] then kv else
    var before, e := Replay(kv, log[..|log| - 1]), log[|log| - 1];
    if e.Exec? && e.m.hdr.op != RDMA_ERR then KvCall(before, e.m, e.out.Failed?).0 else before
  }

  ghost predicate IssuedAs(log: seq<Event>, m: Message) {
    exists call :: Issue(m.hdr, call) in log && m.key == call.key && m.value == call.value
  }

  ghost predicate IssuedIn(log: seq<Event>, x: SeqOp) {
    exists y, call :: Issue(y, call) in log && x.SameBase(y)
  }

  ghost predicate ExecutedIn(log: seq<Event>, x: SeqOp) {
    exists m, out :: Exec(m, out) in log && x.SameBase(m.hdr)
  }

  ghost predicate DoneIn(log: seq<Event>, x: SeqOp) {
    exists d :: Done(d) in log && x.SameBase(d.hdr)
  }

  /** What a completion may tell the caller of `call`. Success: the store executed this very
      request, and for a get the caller's buffer and length hold the value it read. Failure:
      the store executed it and refused. */
  ghost predicate Truthful(past: seq<Event>, d: Completion, call: Call) {
    var m := Message(d.hdr, call.key, call.value);
    && d.user == call.user && d.called == call.callback
    && (d.ret == OP_SUCCESS && call.op != RDMA_ERR ==>
          exists v :: Exec(m, Ok(v)) in past && (call.op == RDMA_GET ==> Delivered(d, call, v)))
    && (d.ret == OP_FAILED ==> Exec(m, Failed) in past)
  }

  ghost predicate Delivered(d: Completion, call: Call, v: Bytes) {
    && (call.dest.Some? ==> d.seen.Some? && v <= d.seen.value)
    && (call.len.Some? ==> d.len == Some(|v|))
  }

  /** A request that was issued and not yet executed. */
  ghost predicate Asked(past: seq<Event>, m: Message) { IssuedAs(past, m) && !ExecutedIn(past, m.hdr) }

  /** The store's answer to a request, come back to it as if it were a request. The handler
      does not tell the two apart. */
  ghost predicate Stray(past: seq<Event>, m: Message) {
    !IssuedIn(past, m.hdr) &&
    exists q: Message, v :: Exec(q, Ok(v)) in past && IssuedAs(past, q) && m == ReplyTo(q.hdr, Ok(v))
  }

  /** What the past must have held for an event to be allowed next. */
  ghost predicate Justified(kv: Store, past: seq<Event>, e: Event) {
    match e
    case Issue(x, call) => x.op == call.op && !IssuedIn(past, x) && !ExecutedIn(past, x)
    case Exec(m, out) =>
      && m.hdr.op != RDMA_ERR && (Asked(past, m) || Stray(past, m))
      && out == KvCall(Replay(kv, past), m, out.Failed?).1
    case Done(d) =>
      && !DoneIn(past, d.hdr)
      && exists call :: Issue(d.hdr, call) in past && Truthful(past, d, call)
  }

  ghost predicate Legal(kv: Store, log: seq<Event>) {
    forall k | 0 <= k < |log| :: Justified(kv, log[..k], log[k])
  }

  lemma LegalAppend(kv: Store, log: seq<Event>, e: Event)
    requires Legal(kv, log) && Justified(kv, log, e)
    ensures Legal(kv, log + [e])
    ensures Replay(kv, log + [e]) ==
            if e.Exec? && e.m.hdr.op != RDMA_ERR then KvCall(Replay(kv, log), e.m, e.out.Failed?).0 else Replay(kv, log)
  {
    var log' := log + [e];
    assert log'[..|log|] == log;
    forall k | 0 <= k < |log'| ensures Justified(kv, log'[..k], log'[k]) {
      if k < |log| { assert log'[..k] == log[..k]; }
    }
  }

  // ---- what a legal history means ----------------------------------------------------------

  /** The store an execution leaves and what it reports, spelled out. */
  lemma ExecutionMeans(kv: Store, log: seq<Event>, i: nat)
    requires Legal(kv, log) && i < |log| && log[i].Exec?
    ensures var m, out, before, after := log[i].m, log[i].out, Replay(kv, log[..i]), Replay(kv, log[..i + 1]);
            && (out.Failed? ==> after == before && (m.hdr.op != RDMA_PUT ==> m.key !in before))
            && (out.Ok? && m.hdr.op == RDMA_GET ==> m.key in before && out.value == before[m.key] && after == before)
            && (out.Ok? && m.hdr.op == RDMA_PUT ==> after == before[m.key := m.value])
            && (out.Ok? && m.hdr.op == RDMA_DELETE ==> m.key in before && after == before - {m.key})
  {
    hide KvCall, Asked, Stray, Truthful;
    var past, e := log[..i], log[i];
    assert Justified(kv, past, e);
    assert log[..i + 1] == past + [e] && (past + [e])[..i] == past;
    CallMeans(Replay(kv, past), e.m, e.out);
  }

  lemma CallMeans(before: Store, m: Message, out: Outcome)
    requires m.hdr.op != RDMA_ERR && out == KvCall(before, m, out.Failed?).1
    ensures var after := KvCall(before, m, out.Failed?).0;
            && (out.Failed? ==> after == before && (m.hdr.op != RDMA_PUT ==> m.key !in before))
            && (out.Ok? && m.hdr.op == RDMA_GET ==> m.key in before && out.value == before[m.key] && after == before)
            && (out.Ok? && m.hdr.op == RDMA_PUT ==> after == before[m.key := m.value])
            && (out.Ok? && m.hdr.op == RDMA_DELETE ==> m.key in before && after == before - {m.key})
  {
  }

  lemma InPast(log: seq<Event>, i: nat, k: nat)
    requires i < |log| && k <= |log|
    ensures i < k ==> log[i] in log[..k]
  {
    if i < k { assert log[..k][i] == log[i]; }
  }

  lemma StrayAnswer(past: seq<Event>, m: Message) returns (q: Message, v: Bytes)
    requires Stray(past, m)
    ensures Exec(q, Ok(v)) in past && IssuedAs(past, q) && m == ReplyTo(q.hdr, Ok(v))
  {
    q, v :| Exec(q, Ok(v)) in past && IssuedAs(past, q) && m == ReplyTo(q.hdr, Ok(v));
  }

  /** An execution of what no client asked for is of a store's own answer, and leaves every key
      but the empty one alone. */
  lemma StrayMeans(kv: Store, log: seq<Event>, i: nat) returns (g: nat)
    requires Legal(kv, log) && i < |log| && log[i].Exec? && !IssuedAs(log[..i], log[i].m)
    ensures g < i && log[g].Exec? && log[g].out.Ok? && IssuedAs(log[..i], log[g].m)
    ensures log[i].m == ReplyTo(log[g].m.hdr, log[g].out)
    ensures Replay(kv, log[..i + 1]) - {[]} == Replay(kv, log[..i]) - {[]}
  {
    assert Justified(kv, log[..i], log[i]);
    hide Legal, IssuedAs, IssuedIn, ExecutedIn, Replay, KvCall, Stray, Justified;
    var q, v := StrayAnswer(log[..i], log[i].m);
    g := PlaceOf(log, i, Exec(q, Ok(v)));
    assert log[i].m.key == [];
    ExecutionMeans(kv, log, i);
    OneKey(Replay(kv, log[..i]), Replay(kv, log[..i + 1]), [], log[i].m.value);
  }

  lemma OneKey(before: Store, after: Store, k: Bytes, v: Bytes)
    requires after in {before, before[k := v], before - {k}}
    ensures after - {k} == before - {k}
  {
  }

  /** An execution comes after the issue of its number. */
  lemma IssueBefore(kv: Store, log: seq<Event>, h: nat, i: nat)
    requires Legal(kv, log) && h < |log| && i < |log|
    requires log[h].Issue? && log[i].Exec? && log[h].x.SameBase(log[i].m.hdr)
    ensures h < i
  {
    InPast(log, i, h);
    assert Justified(kv, log[..h], log[h]);
  }

  /** No number a client issued is executed twice. */
  lemma OneExecution(kv: Store, log: seq<Event>, h: nat, i: nat, k: nat)
    requires Legal(kv, log) && h < |log| && i < |log| && k < |log|
    requires log[h].Issue? && log[i].Exec? && log[k].Exec?
    requires log[h].x.SameBase(log[i].m.hdr) && log[h].x.SameBase(log[k].m.hdr)
    ensures i == k
  {
    IssueBefore(kv, log, h, i);
    IssueBefore(kv, log, h, k);
    InPast(log, h, i);
    InPast(log, h, k);
    InPast(log, i, k);
    InPast(log, k, i);
    assert Justified(kv, log[..i], log[i]) && Justified(kv, log[..k], log[k]);
  }

  /** No request completes twice. */
  lemma OneCompletion(kv: Store, log: seq<Event>, i: nat, k: nat)
    requires Legal(kv, log) && i < |log| && k < |log|
    requires log[i].Done? && log[k].Done? && log[i].done.hdr.SameBase(log[k].done.hdr)
    ensures i == k
  {
    assert Justified(kv, log[..i], log[i]) && Justified(kv, log[..k], log[k]);
  }

  lemma PlaceOf(log: seq<Event>, j: nat, e: Event) returns (i: nat)
    requires j <= |log| && e in log[..j]
    ensures i < j && log[i] == e
  {
    i :| 0 <= i < j && log[..j][i] == e;
  }

  /** A completion belongs to a request issued before it. */
  lemma IssuePoint(kv: Store, log: seq<Event>, j: nat) returns (h: nat)
    requires Legal(kv, log) && j < |log| && log[j].Done?
    ensures h < j && log[h].Issue? && log[h].x == log[j].done.hdr && log[h].call.op == log[h].x.op
    ensures Truthful(log[..j], log[j].done, log[h].call)
  {
    var d := log[j].done;
    assert Justified(kv, log[..j], log[j]);
    var call :| Issue(d.hdr, call) in log[..j] && Truthful(log[..j], d, call);
    h := PlaceOf(log, j, Issue(d.hdr, call));
    assert Justified(kv, log[..h], log[h]);
  }

  /** The execution a completion reports lies between its issue and itself. */
  lemma ReportedPoint(kv: Store, log: seq<Event>, j: nat) returns (h: nat, i: nat)
    requires Legal(kv, log) && j < |log| && log[j].Done?
    requires log[j].done.hdr.op != RDMA_ERR && log[j].done.ret in {OP_SUCCESS, OP_FAILED}
    ensures h < i < j && log[h].Issue? && log[i].Exec?
    ensures var call, d := log[h].call, log[j].done;
            && log[h].x == d.hdr && call.op == d.hdr.op && call.user == d.user
            && log[i].m == Message(d.hdr, call.key, call.value)
            && (log[i].out.Ok? <==> d.ret == OP_SUCCESS)
            && (d.ret == OP_SUCCESS && call.op == RDMA_GET ==> Delivered(d, call, log[i].out.value))
  {
    h := IssuePoint(kv, log, j);
    var call, d := log[h].call, log[j].done;
    var m := Message(d.hdr, call.key, call.value);
    var out := Failed;
    if d.ret == OP_SUCCESS {
      var v :| Exec(m, Ok(v)) in log[..j] && (call.op == RDMA_GET ==> Delivered(d, call, v));
      out := Ok(v);
    }
    i := PlaceOf(log, j, Exec(m, out));
    IssueBefore(kv, log, h, i);
  }

  /** Linearizability. A get, put or delete that completes with success took effect at one
      point `i`, the only execution of its number in the whole history, after it was issued
      at `h` and before it completed at `j`; and a get delivered what the store held there. */
  lemma Linearization(kv: Store, log: seq<Event>, j: nat) returns (h: nat, i: nat)
    requires Legal(kv, log) && j < |log| && log[j].Done?
    requires log[j].done.hdr.op != RDMA_ERR && log[j].done.ret == OP_SUCCESS
    ensures h < i < j && log[h].Issue? && log[i].Exec? && log[h].x == log[i].m.hdr == log[j].done.hdr
    ensures forall i' | 0 <= i' < |log| && log[i'].Exec? && log[i'].m.hdr.SameBase(log[j].done.hdr) :: i' == i
    ensures var call, d, before, after := log[h].call, log[j].done, Replay(kv, log[..i]), Replay(kv, log[..i + 1]);
            && call.user == d.user && call.op == d.hdr.op
            && (call.op == RDMA_GET ==>
                  call.key in before && after == before && Delivered(d, call, before[call.key]))
            && (call.op == RDMA_PUT ==> after == before[call.key := call.value])
            && (call.op == RDMA_DELETE ==> call.key in before && after == before - {call.key})
  {
    h, i := ReportedPoint(kv, log, j);
    ExecutionMeans(kv, log, i);
    forall i' | 0 <= i' < |log| && log[i'].Exec? && log[i'].m.hdr.SameBase(log[j].done.hdr) ensures i' == i {
      OneExecution(kv, log, h, i, i');
    }
  }

  /** A reported failure is one of the store, which it left unchanged: the key was missing, or
      the store refused the put. */
  lemma FailureIsReal(kv: Store, log: seq<Event>, j: nat) returns (h: nat, i: nat)
    requires Legal(kv, log) && j < |log| && log[j].Done?
    requires log[j].done.hdr.op != RDMA_ERR && log[j].done.ret == OP_FAILED
    ensures h < i < j && log[h].Issue? && log[i].Exec? && log[h].x == log[i].m.hdr == log[j].done.hdr
    ensures Replay(kv, log[..i + 1]) == Replay(kv, log[..i])
    ensures log[h].call.op != RDMA_PUT ==> log[h].call.key !in Replay(kv, log[..i])
  {
    h, i := ReportedPoint(kv, log, j);
    ExecutionMeans(kv, log, i);
  }
}

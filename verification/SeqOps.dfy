/** The 64-bit message number `seq_op`: 54 bits of sequence, 8 bits of client ID and 2 bits of
    operation. The rest of the model works on the three fields; `Pack` lays them out in the
    64-bit integer, and the lemmas of the first part show that every 64-bit integer is one
    such layout and that the header file's macros act on the fields as the functions here do. */
module SeqOps {

  const TWO_64: int := 0x1_0000_0000_0000_0000
  const SEQ_SPAN: int := 0x40_0000_0000_0000 // 2^54 sequence numbers
  const MAX_REQUESTS: int := 0x20_0000_0000_0000 // 2^53: a client uses every second number
  const RING_SIZE: int := 1024

  const RDMA_GET: OpCode := 0
  const RDMA_PUT: OpCode := 1
  const RDMA_DELETE: OpCode := 2
  const RDMA_ERR: OpCode := 3

  type U64 = x: int | 0 <= x < TWO_64
  type OpCode = x: int | 0 <= x < 4
  type ClientId = x: int | 0 <= x < 256
  type SeqNumber = x: int | 0 <= x < SEQ_SPAN

  datatype SeqOp = SeqOp(num: SeqNumber, id: ClientId, op: OpCode) {

    function Next(): SeqOp { this.(num := NextNumber(num)) }

    function Prev(): SeqOp { this.(num := PrevNumber(num)) }

    function SetOp(o: OpCode): SeqOp { this.(op := o) }

    /** Agreement outside the operation bits: what a response is compared on. */
    predicate SameBase(y: SeqOp) { num == y.num && id == y.id }

    /** Slot of the client's ring that belongs to a request number. */
    function RingIndex(): nat { num / 2 % RING_SIZE }
  }

  function NextNumber(s: SeqNumber): SeqNumber { if s + 1 == SEQ_SPAN then 0 else s + 1 }

  function PrevNumber(s: SeqNumber): SeqNumber { if s == 0 then SEQ_SPAN - 1 else s - 1 }

  // ---- layout in 64 bits -------------------------------------------------------------------

  function Pack(x: SeqOp): U64 { 1024 * x.num + 4 * x.id + x.op }

  function Unpack(n: U64): SeqOp { SeqOp(n / 1024, n % 1024 / 4, n % 4) }

  /** Quotient and remainder are determined by the equation they solve. */
  lemma DivMod(a: int, b: int, q: int, r: int)
    requires 0 < b && 0 <= r < b && a == b * q + r
    ensures a / b == q && a % b == r
  {
    var d := q - a / b;
    assert b * d == a % b - r by { assert b * d == b * q - b * (a / b); }
    assert d >= 1 ==> b * d >= b;
    assert d <= -1 ==> b * d <= -b;
  }

  lemma DivTwice(n: nat, a: nat, b: nat)
    requires a > 0 && b > 0
    ensures a * b > 0 && n / (a * b) == n / a / b
  {
    var m, s := n / a, n % a;
    var q, r := m / b, m % b;
    Nested(a, b, m, q, r, s);
    DivMod(n, a * b, q, a * r + s);
  }

  lemma Nested(a: nat, b: nat, m: nat, q: nat, r: nat, s: nat)
    requires m == b * q + r && r < b && s < a
    ensures a * m + s == a * b * q + (a * r + s) && a * r + s < a * b
  {
    assert a * (b * q + r) == a * (b * q) + a * r;
    assert a * (b * q) == a * b * q;
    assert a * (b - 1 - r) >= 0;
    assert a * (b - 1 - r) == a * b - a - a * r;
  }

  /** Every 64-bit integer is the layout of exactly one triple of fields. */
  lemma PackUnpack(x: SeqOp, n: U64)
    ensures Unpack(Pack(x)) == x
    ensures Pack(Unpack(n)) == n
  {
    var low := 4 * x.id + x.op;
    DivMod(Pack(x), 1024, x.num, low);
    DivMod(low, 4, x.id, x.op);
    DivMod(Pack(x), 4, 256 * x.num + x.id, x.op);
    DivMod(n, 4, 256 * (n / 1024) + n % 1024 / 4, n % 1024 % 4);
  }

  /** The additions and subtractions of one sequence number on 64-bit integers. */
  lemma PackSteps(x: SeqOp)
    ensures Pack(x.Next()) == (Pack(x) + 1024) % TWO_64
    ensures Pack(x.Prev()) == (Pack(x) + TWO_64 - 1024) % TWO_64
    ensures x.Next().Prev() == x && x.Prev().Next() == x
  {
  }

  /** The masks: clearing the low 2 or 10 bits and writing the operation or the ID. */
  lemma PackMasks(x: SeqOp, y: SeqOp, o: OpCode, i: ClientId)
    ensures Pack(x.SetOp(o)) == Pack(x) - Pack(x) % 4 + o
    ensures Pack(x.SetOp(RDMA_GET)) % 4 == 0 && Pack(x.SetOp(RDMA_PUT)) % 4 == 1
    ensures Pack(x.SetOp(RDMA_DELETE)) % 4 == 2 && Pack(x.SetOp(RDMA_ERR)) % 4 == 3
    ensures Pack(SeqOp(x.num, i, 0)) == Pack(x) - Pack(x) % 1024 + 4 * i
    ensures x.SameBase(y) <==> Pack(x) - Pack(x) % 4 == Pack(y) - Pack(y) % 4
  {
    DivMod(Pack(x), 4, 256 * x.num + x.id, x.op);
    DivMod(Pack(x), 1024, x.num, 4 * x.id + x.op);
    DivMod(Pack(y), 4, 256 * y.num + y.id, y.op);
  }

  // ---- the numbers one client hands out ----------------------------------------------------

  /** Sequence number of a client's n-th request when its counter started at `start`. */
  function Numbered(start: SeqNumber, n: nat): SeqNumber { (start + 2 * n) % SEQ_SPAN }

  /** How many requests after `start` a sequence number was issued. */
  function Ordinal(start: SeqNumber, s: SeqNumber): nat {
    (if s >= start then s - start else s + SEQ_SPAN - start) / 2
  }

  /** Whether a number has the parity of the client's requests. */
  predicate OnGrid(start: SeqNumber, s: SeqNumber) { s % 2 == start % 2 }

  /** Ring slot of the n-th request. */
  function Slot(start: SeqNumber, n: nat): nat { (start / 2 + n) % RING_SIZE }

  lemma NumberedFacts(start: SeqNumber, n: nat)
    ensures OnGrid(start, Numbered(start, n))
    ensures Numbered(start, n) / 2 % RING_SIZE == Slot(start, n)
    ensures NextNumber(NextNumber(Numbered(start, n))) == Numbered(start, n + 1)
    ensures n < MAX_REQUESTS ==> Ordinal(start, Numbered(start, n)) == n
  {
    var q, x := (start + 2 * n) / SEQ_SPAN, Numbered(start, n);
    var h, p := start / 2, start % 2;
    var halved := h + n - MAX_REQUESTS * q;
    DivMod(x, 2, halved, p);
    DivMod(halved, RING_SIZE, (h + n) / RING_SIZE - MAX_REQUESTS / RING_SIZE * q, Slot(start, n));
    if x + 2 < SEQ_SPAN {
      DivMod(start + 2 * (n + 1), SEQ_SPAN, q, x + 2);
    } else {
      DivMod(start + 2 * (n + 1), SEQ_SPAN, q + 1, x + 2 - SEQ_SPAN);
    }
  }

  /** The ring comes round after 1024 requests. */
  lemma SlotPeriod(start: SeqNumber, n: nat)
    ensures Slot(start, n + RING_SIZE) == Slot(start, n)
  {
    DivMod(start / 2 + n + RING_SIZE, RING_SIZE, (start / 2 + n) / RING_SIZE + 1, Slot(start, n));
  }

  /** Requests and responses never share a number: a reflected request is no response. */
  lemma ResponseOffGrid(start: SeqNumber, s: SeqNumber)
    ensures OnGrid(start, NextNumber(s)) <==> !OnGrid(start, s)
  {
  }

  /** A number of the right parity is the number of its ordinal. */
  lemma OrdinalInverse(start: SeqNumber, s: SeqNumber)
    requires OnGrid(start, s)
    ensures Ordinal(start, s) < MAX_REQUESTS
    ensures s == Numbered(start, Ordinal(start, s))
  {
  }

  /** Fewer than 2^53 requests have distinct numbers, however the counter wraps. */
  lemma NumberedInjective(start: SeqNumber, n: nat, m: nat)
    requires n < MAX_REQUESTS && m < MAX_REQUESTS
    ensures Numbered(start, n) == Numbered(start, m) <==> n == m
  {
    NumberedFacts(start, n);
    NumberedFacts(start, m);
  }
}
